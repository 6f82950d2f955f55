/** Path patterns made of literal characters, `*` and `?`: normal form and containment. */
module PathPolicy {
  import opened Common
  import opened WorkGraphs

  predicate IsToken(c: char) {
    c == '*' || c == '?' || c == '['
  }

  predicate HasToken(pattern: string) {
    exists i | 0 <= i < |pattern| :: IsToken(pattern[i])
  }

  function TrimSlashes(s: string): string {
    if s != [] && s[|s| - 1] == '/' then TrimSlashes(s[..|s| - 1]) else s
  }

  /** Shell-style matching; `*` also crosses `/`. */
  predicate Glob(path: string, pattern: string)
    decreases |path| + |pattern|
  {
    if pattern == [] then path == []
    else if pattern[0] == '*' then Glob(path, pattern[1..]) || (path != [] && Glob(path[1..], pattern))
    else path != [] && (pattern[0] == '?' || pattern[0] == path[0]) && Glob(path[1..], pattern[1..])
  }

  predicate Matches(path: string, pattern: string) {
    if EndsWith(pattern, "/**") then
      var prefix := TrimSlashes(pattern[..|pattern| - 3]);
      path == prefix || prefix + "/" <= path
    else path == pattern || Glob(path, pattern)
  }

  /** The leading path parts without a token: `cut` is where the last finished part ends. */
  function LiteralFrom(pattern: string, i: nat, cut: nat): string
    requires cut <= i <= |pattern|
    decreases |pattern| - i
  {
    if i == |pattern| then pattern
    else if IsToken(pattern[i]) then pattern[..cut]
    else LiteralFrom(pattern, i + 1, if pattern[i] == '/' then i else cut)
  }

  function LiteralPrefix(pattern: string): string {
    LiteralFrom(pattern, 0, 0)
  }

  predicate Contains(parent: string, child: string) {
    || parent == child
    || (!HasToken(parent) && parent + "/" <= child)
    || (!HasToken(child) && Matches(child, parent))
    || (var outer, inner := LiteralPrefix(parent), LiteralPrefix(child);
        || outer == []
        || ((inner == outer || outer + "/" <= inner) && (EndsWith(parent, "/**") || Glob(child, parent))))
  }

  /* ----------------------------------------------------------------- normal form */

  function WithSlashes(s: string): string {
    seq(|s|, i requires 0 <= i < |s| => if s[i] == '\\' then '/' else s[i])
  }

  function DropDotSlash(s: string): string {
    if "./" <= s then DropDotSlash(s[2..]) else s
  }

  function TrimLeftSlashes(s: string): string {
    if s != [] && s[0] == '/' then TrimLeftSlashes(s[1..]) else s
  }

  /** The part that starts at `i` is two dots. */
  predicate IsDotDot(s: string, i: nat) {
    && i + 2 <= |s| && s[i] == '.' && s[i + 1] == '.'
    && (i == 0 || s[i - 1] == '/') && (i + 2 == |s| || s[i + 2] == '/')
  }

  predicate HasDotDot(s: string) {
    exists i | 0 <= i < |s| :: IsDotDot(s, i)
  }

  /** The normal form of a pattern; none for an empty one and for one that climbs. */
  function Normalize(s: string): Option<string> {
    var text := TrimSlashes(TrimLeftSlashes(DropDotSlash(Strip(WithSlashes(s)))));
    if text == "" || text == "." || HasDotDot(text) then None else Some(text)
  }

  /** Containment of patterns as they are written.  A pattern without a normal form is an error, so it
      neither contains nor is contained. */
  predicate Covers(parent: string, child: string) {
    Normalize(parent).Some? && Normalize(child).Some? && Contains(Normalize(parent).value, Normalize(child).value)
  }

  /* ----------------------------------------------------------------- literal paths */

  lemma {:induction false} LiteralGlob(path: string, pattern: string)
    requires !HasToken(pattern)
    ensures Glob(path, pattern) <==> path == pattern
    decreases |pattern|
  {
    if pattern != [] {
      assert !IsToken(pattern[0]);
      assert forall i | 0 <= i < |pattern[1..]| :: pattern[1..][i] == pattern[i + 1];
      if path != [] {
        LiteralGlob(path[1..], pattern[1..]);
        assert path == [path[0]] + path[1..] && pattern == [pattern[0]] + pattern[1..];
      }
    }
  }

  lemma {:induction false} LiteralIsItsPrefix(pattern: string, i: nat, cut: nat)
    requires cut <= i <= |pattern| && !HasToken(pattern)
    ensures LiteralFrom(pattern, i, cut) == pattern
    decreases |pattern| - i
  {
    if i < |pattern| {
      assert !IsToken(pattern[i]);
      LiteralIsItsPrefix(pattern, i + 1, if pattern[i] == '/' then i else cut);
    }
  }

  /** On paths without tokens, containment is being the same path or a path below it. */
  lemma LiteralContainment(parent: string, child: string)
    requires !HasToken(parent) && !HasToken(child) && parent != []
    ensures Contains(parent, child) <==> parent == child || parent + "/" <= child
  {
    LiteralGlob(child, parent);
    LiteralIsItsPrefix(parent, 0, 0);
    LiteralIsItsPrefix(child, 0, 0);
    if EndsWith(parent, "/**") { assert IsToken(parent[|parent| - 1]); }
  }

  /** Containment is not transitive: `src/?` contains `src/a`, which contains `src/a/b`, which `src/?`
      does not contain. */
  lemma PatternContainmentIsNotTransitive()
    ensures Contains("src/?", "src/a") && Contains("src/a", "src/a/b") && !Contains("src/?", "src/a/b")
    ensures !Transitive(Contains)
  {
    var x, y, z := "src/?", "src/a", "src/a/b";
    assert IsToken(x[4]);
    assert y + "/" <= z;
    QuestionMark("a");
    QuestionMark("a/b");
    assert x == "src/" + "?" && y == "src/" + "a" && z == "src/" + "a/b";
    assert !EndsWith(x, "/**");
    PrefixOfQuestionMark();
    assert Contains(x, y) && Contains(y, z) && !Contains(x, z);
    NotTransitiveAt(x, y, z);
  }

  lemma NotTransitiveAt(x: string, y: string, z: string)
    requires x != [] && y != [] && z != [] && !IsBlank(x[0]) && !IsBlank(y[0]) && !IsBlank(z[0])
    requires Contains(x, y) && Contains(y, z) && !Contains(x, z)
    ensures !Transitive(Contains)
  {
    TextIsNotBlank(x);
    TextIsNotBlank(y);
    TextIsNotBlank(z);
  }

  lemma PrefixOfQuestionMark()
    ensures LiteralPrefix("src/?") == "src"
  {
    var x := "src/?";
    assert IsToken(x[4]);
    assert LiteralFrom(x, 4, 3) == x[..3];
    assert LiteralFrom(x, 3, 0) == LiteralFrom(x, 4, 3);
    assert LiteralFrom(x, 2, 0) == LiteralFrom(x, 3, 0);
    assert LiteralFrom(x, 1, 0) == LiteralFrom(x, 2, 0);
    assert LiteralFrom(x, 0, 0) == LiteralFrom(x, 1, 0);
  }

  lemma {:induction false} GlobAfterLiteral(prefix: string, path: string, pattern: string)
    requires !HasToken(prefix)
    ensures Glob(prefix + path, prefix + pattern) <==> Glob(path, pattern)
  {
    if prefix == [] {
      assert prefix + path == path && prefix + pattern == pattern;
    } else {
      assert !IsToken(prefix[0]) && forall i | 0 <= i < |prefix[1..]| :: prefix[1..][i] == prefix[i + 1];
      GlobAfterLiteral(prefix[1..], path, pattern);
      assert (prefix + path)[1..] == prefix[1..] + path && (prefix + pattern)[1..] == prefix[1..] + pattern;
    }
  }

  lemma QuestionMark(tail: string)
    ensures Glob("src/" + tail, "src/?") <==> |tail| == 1
  {
    assert "src/?" == "src/" + "?" && "?"[1..] == "";
    GlobAfterLiteral("src/", tail, "?");
  }

}
