/** From which patterns path containment is transitive, exactly. */
module PathRoots {
  import opened Common
  import opened PathPolicy

  /** The same path, or one below it. */
  predicate Under(outer: string, inner: string) {
    inner == outer || outer + "/" <= inner
  }

  predicate EndsInSlash(s: string) {
    s != [] && s[|s| - 1] == '/'
  }

  /** A pattern without wildcards, one with a wildcard in its first part, or any that ends in a double
      star; `RootedReads` says so of proper patterns. */
  predicate Rooted(pattern: string) {
    || LiteralPrefix(pattern) == []
    || (!EndsInSlash(LiteralPrefix(pattern)) && (!HasToken(pattern) || EndsWith(pattern, "/**")))
  }

  /* ------------------------------------------------------- prefixes and slashes */

  lemma UnderIsTransitive(a: string, b: string, c: string)
    requires Under(a, b) && Under(b, c)
    ensures Under(a, c)
  {
  }

  lemma {:induction false} TrimIsPrefix(s: string)
    ensures TrimSlashes(s) <= s && !EndsInSlash(TrimSlashes(s))
    ensures TrimSlashes(s) != s ==> TrimSlashes(s) + "/" <= s
    ensures forall i | |TrimSlashes(s)| <= i < |s| :: s[i] == '/'
  {
    if EndsInSlash(s) { TrimIsPrefix(s[..|s| - 1]); }
  }

  lemma UnderTrimmed(outer: string, inner: string)
    requires Under(outer, inner)
    ensures Under(TrimSlashes(outer), inner)
  {
    TrimIsPrefix(outer);
  }

  lemma TrimmedStaysUnder(outer: string, inner: string)
    requires Under(outer, inner) && outer != [] && !EndsInSlash(outer)
    ensures Under(outer, TrimSlashes(inner))
  {
    TrimIsPrefix(inner);
    var t := TrimSlashes(inner);
    assert inner[|outer| - 1] == outer[|outer| - 1];
    assert t == inner[..|t|] && outer == inner[..|outer|];
  }

  lemma {:induction false} TrimOfTrimmed(s: string)
    requires !EndsInSlash(s)
    ensures TrimSlashes(s) == s
  {
  }

  /* ------------------------------------------------------------ literal prefixes */

  /** Where the first wildcard of a pattern stands, and what its literal prefix is. */
  ghost predicate FirstTokenAt(pattern: string, t: nat) {
    && t < |pattern| && IsToken(pattern[t]) && forall i | 0 <= i < t :: !IsToken(pattern[i])
  }

  lemma {:induction false} LiteralFromShape(pattern: string, i: nat, cut: nat, t: nat)
    requires FirstTokenAt(pattern, t) && cut <= i <= t
    requires (cut > 0 ==> pattern[cut] == '/') && forall j | cut < j < i :: pattern[j] != '/'
    ensures var p := LiteralFrom(pattern, i, cut);
      && |p| <= t && p == pattern[..|p|] && (|p| > 0 ==> pattern[|p|] == '/')
      && forall j | |p| < j < t :: pattern[j] != '/'
    decreases t - i
  {
    if i < t { LiteralFromShape(pattern, i + 1, if pattern[i] == '/' then i else cut, t); }
  }

  lemma PrefixShape(pattern: string) returns (t: nat)
    requires HasToken(pattern)
    ensures FirstTokenAt(pattern, t)
    ensures var p := LiteralPrefix(pattern);
      && |p| <= t && p == pattern[..|p|] && (|p| > 0 ==> |p| < t && pattern[|p|] == '/')
      && (forall j | |p| < j < t :: pattern[j] != '/') && !HasToken(p)
  {
    t := 0;
    while !IsToken(pattern[t])
      invariant t < |pattern| && forall i | 0 <= i < t :: !IsToken(pattern[i])
      decreases |pattern| - t
    {
      var later :| 0 <= later < |pattern| && IsToken(pattern[later]);
      t := t + 1;
    }
    LiteralFromShape(pattern, 0, 0, t);
  }

  /** A path without wildcards above a pattern is above its literal prefix. */
  lemma AboveIsAbovePrefix(path: string, pattern: string)
    requires !HasToken(path) && path + "/" <= pattern
    ensures Under(path, LiteralPrefix(pattern))
  {
    if HasToken(pattern) {
      var t := PrefixShape(pattern);
      assert pattern[|path|] == '/';
      assert forall i | 0 <= i < |path| :: pattern[i] == path[i] && !IsToken(path[i]);
      assert |path| < t;
      var p := LiteralPrefix(pattern);
      assert |path| <= |p|;
      assert path == pattern[..|path|];
      if |path| < |p| { assert p[|path|] == '/' && path + "/" == p[..|path| + 1]; }
    } else {
      LiteralIsItsPrefix(pattern, 0, 0);
    }
  }

  lemma AbovePrefixIsAbove(path: string, pattern: string)
    requires path != [] && Under(path, LiteralPrefix(pattern))
    ensures path == pattern || path + "/" <= pattern
  {
    if HasToken(pattern) {
      var t := PrefixShape(pattern);
    } else {
      LiteralIsItsPrefix(pattern, 0, 0);
    }
  }

  /** A match repeats the pattern up to its first wildcard. */
  lemma {:induction false} MatchRepeatsLiterals(path: string, pattern: string, n: nat)
    requires Glob(path, pattern) && n <= |pattern| && forall i | 0 <= i < n :: !IsToken(pattern[i])
    ensures n <= |path| && path[..n] == pattern[..n]
    decreases n
  {
    if n > 0 {
      MatchRepeatsLiterals(path[1..], pattern[1..], n - 1);
      assert path[..n] == [path[0]] + path[1..][..n - 1] && pattern[..n] == [pattern[0]] + pattern[1..][..n - 1];
    }
  }

  lemma MatchIsUnderPrefix(path: string, pattern: string)
    requires Glob(path, pattern) && HasToken(pattern) && LiteralPrefix(pattern) != []
    ensures LiteralPrefix(pattern) + "/" <= path
  {
    var t := PrefixShape(pattern);
    MatchRepeatsLiterals(path, pattern, t);
    var p := LiteralPrefix(pattern);
    assert path[..|p| + 1] == pattern[..|p| + 1] == p + "/" by {
      assert path[..t][..|p| + 1] == path[..|p| + 1] && pattern[..t][..|p| + 1] == pattern[..|p| + 1];
    }
  }

  /* ---------------------------------------------------------------- containment */

  lemma SubtreePrefix(pattern: string)
    requires EndsWith(pattern, "/**")
    ensures HasToken(pattern)
    ensures var base := TrimSlashes(pattern[..|pattern| - 3]);
      !HasToken(base) ==> TrimSlashes(LiteralPrefix(pattern)) == base
  {
    var n := |pattern| - 3;
    assert pattern[n..] == "/**" && IsToken(pattern[n + 1]);
    var base := TrimSlashes(pattern[..n]);
    TrimIsPrefix(pattern[..n]);
    if !HasToken(base) {
      forall i | 0 <= i <= n ensures !IsToken(pattern[i]) {
        if i < |base| { assert pattern[i] == pattern[..n][i] == base[i]; } else if i < n { assert pattern[..n][i] == '/'; }
      }
      var t := PrefixShape(pattern);
      assert t == n + 1;
      assert pattern[n] == pattern[n..][0] == '/';
      assert |LiteralPrefix(pattern)| == n;
    }
  }

  /** Whatever a pattern contains is the pattern itself or lies under its literal prefix. */
  lemma ContainedIsUnder(pattern: string, inner: string)
    requires Contains(pattern, inner)
    ensures pattern == inner || LiteralPrefix(pattern) == [] || Under(TrimSlashes(LiteralPrefix(pattern)), LiteralPrefix(inner))
  {
    var p := LiteralPrefix(pattern);
    if pattern != inner && p != [] {
      if !HasToken(pattern) && pattern + "/" <= inner {
        LiteralIsItsPrefix(pattern, 0, 0);
        AboveIsAbovePrefix(pattern, inner);
        UnderTrimmed(pattern, LiteralPrefix(inner));
      } else if !HasToken(inner) && Matches(inner, pattern) {
        LiteralIsItsPrefix(inner, 0, 0);
        MatchedIsUnder(pattern, inner);
      } else {
        UnderTrimmed(p, LiteralPrefix(inner));
      }
    }
  }

  lemma MatchedIsUnder(pattern: string, path: string)
    requires !HasToken(path) && Matches(path, pattern) && path != pattern && LiteralPrefix(pattern) != []
    ensures Under(TrimSlashes(LiteralPrefix(pattern)), path)
  {
    if EndsWith(pattern, "/**") {
      var base := TrimSlashes(pattern[..|pattern| - 3]);
      forall i | 0 <= i < |base| ensures !IsToken(base[i]) { assert base[i] == path[i]; }
      SubtreePrefix(pattern);
    } else if HasToken(pattern) {
      MatchIsUnderPrefix(path, pattern);
      UnderTrimmed(LiteralPrefix(pattern), path);
    } else {
      LiteralGlob(path, pattern);
      assert false;
    }
  }

  /** A rooted pattern contains everything under its literal prefix. */
  lemma RootedContainsWhatIsUnder(pattern: string, inner: string)
    requires Rooted(pattern)
    requires pattern == inner || LiteralPrefix(pattern) == [] || Under(LiteralPrefix(pattern), LiteralPrefix(inner))
    ensures Contains(pattern, inner)
  {
    if pattern != inner && LiteralPrefix(pattern) != [] && !HasToken(pattern) {
      LiteralIsItsPrefix(pattern, 0, 0);
      AbovePrefixIsAbove(pattern, inner);
    }
  }

  /** Containment is transitive from every rooted pattern, through any patterns. */
  lemma RootedIsTransitive(x: string, y: string, z: string)
    requires Rooted(x) && Contains(x, y) && Contains(y, z)
    ensures Contains(x, z)
  {
    var p, q := LiteralPrefix(x), LiteralPrefix(y);
    ContainedIsUnder(x, y);
    ContainedIsUnder(y, z);
    if x != y && y != z && p != [] {
      TrimOfTrimmed(p);
      assert Under(p, q) && q != [];
      TrimmedStaysUnder(p, q);
      UnderIsTransitive(p, TrimSlashes(q), LiteralPrefix(z));
    }
    RootedContainsWhatIsUnder(x, z);
  }

  /* ------------------------------------------------------------------ the converse */

  /** A pattern in normal form whose parts are not empty and are not padded, without character classes. */
  predicate IsPattern(p: string) {
    && p != [] && p[0] != '/' && !EndsInSlash(p) && !IsBlank(p[0]) && !IsBlank(p[|p| - 1])
    && '[' !in p && '\\' !in p && p != "." && !("./" <= p)
    && (forall i | 0 <= i < |p| :: !IsDotDot(p, i))
    && (forall i | 0 < i < |p| && p[i] == '/' :: p[i - 1] != '/' && !IsBlank(p[i - 1]))
    && (forall i | 0 < i < |p| && p[i - 1] == '/' :: !IsBlank(p[i]))
  }

  lemma PatternIsNormal(p: string)
    requires IsPattern(p)
    ensures Normalize(p) == Some(p)
  {
    assert WithSlashes(p) == p;
    assert Strip(p) == p && DropDotSlash(p) == p && TrimLeftSlashes(p) == p;
    TrimOfTrimmed(p);
  }

  /** Some wildcard stands before every slash. */
  predicate WildcardFirst(p: string) {
    exists t | 0 <= t < |p| :: IsToken(p[t]) && '/' !in p[..t]
  }

  lemma PrefixIsEmptyExactly(x: string)
    requires IsPattern(x)
    ensures LiteralPrefix(x) == [] <==> WildcardFirst(x)
  {
    if HasToken(x) {
      var t := PrefixShape(x);
      var n := |LiteralPrefix(x)|;
      if n == 0 {
        assert '/' !in x[..t];
      } else {
        forall u | 0 <= u < |x| && IsToken(x[u]) ensures '/' in x[..u] {
          assert n < t <= u && x[..u][n] == '/';
        }
      }
    } else {
      LiteralIsItsPrefix(x, 0, 0);
    }
  }

  /** What being rooted means: no wildcard at all, one in the first part, or a double star at the end. */
  lemma RootedReads(x: string)
    requires IsPattern(x)
    ensures Rooted(x) <==> !HasToken(x) || WildcardFirst(x) || EndsWith(x, "/**")
  {
    PrefixIsEmptyExactly(x);
    if HasToken(x) {
      var t := PrefixShape(x);
    } else {
      LiteralIsItsPrefix(x, 0, 0);
    }
  }

  /** A pattern contains everything exactly when a wildcard stands in its first part: whatever follows,
      it is not looked at. */
  lemma ContainsEverythingExactly(x: string)
    requires IsPattern(x)
    ensures (forall z | IsPattern(z) :: Contains(x, z)) <==> WildcardFirst(x)
  {
    PrefixIsEmptyExactly(x);
    if !WildcardFirst(x) {
      var z := if x[0] == 'a' then "b" else "a";
      assert IsPattern(z);
      AnotherLetterIsOutside(x, z);
    }
  }

  lemma AnotherLetterIsOutside(x: string, z: string)
    requires IsPattern(x) && LiteralPrefix(x) != [] && |z| == 1 && z[0] != x[0] && !IsToken(z[0]) && z[0] != '/'
    ensures !Contains(x, z)
  {
    LiteralIsItsPrefix(z, 0, 0);
    if HasToken(x) {
      var t := PrefixShape(x);
      assert !IsToken(x[0]);
    } else {
      LiteralIsItsPrefix(x, 0, 0);
      assert !IsToken(x[0]);
    }
    if EndsWith(x, "/**") {
      var body := x[..|x| - 3];
      assert body == [] ==> x == "/**";
      assert |body| > 0 && body[0] == x[0];
      TrimIsPrefix(body);
      assert TrimSlashes(body)[0] == x[0];
    }
  }

  /** So a pattern of two parts, `a` with a star and `b`, contains every path there is. */
  lemma StarInFirstPart(z: string)
    ensures Contains("a*/b", z)
  {
    var x := "a*/b";
    assert IsToken(x[1]);
    var t := PrefixShape(x);
    assert x[2] == '/' && forall i | 0 <= i < 2 :: x[i] != '/';
  }

  ghost predicate TransitiveFrom(x: string) {
    forall y, z | IsPattern(y) && IsPattern(z) && Contains(x, y) && Contains(y, z) :: Contains(x, z)
  }

  /** The end of a match repeats the end of the pattern after its last star. */
  lemma {:induction false} MatchRepeatsTail(path: string, pattern: string, k: nat)
    requires Glob(path, pattern) && k <= |pattern| && forall i | k <= i < |pattern| :: pattern[i] != '*'
    ensures |path| >= |pattern| - k && (k == 0 ==> |path| == |pattern|)
    ensures forall i | k <= i < |pattern| :: pattern[i] == '?' || pattern[i] == path[|path| - |pattern| + i]
    decreases |path| + |pattern|
  {
    if pattern != [] {
      if pattern[0] == '*' {
        if Glob(path, pattern[1..]) {
          MatchRepeatsTail(path, pattern[1..], k - 1);
          assert forall i | k <= i < |pattern| :: pattern[1..][i - 1] == pattern[i];
        } else {
          MatchRepeatsTail(path[1..], pattern, k);
        }
      } else {
        MatchRepeatsTail(path[1..], pattern[1..], if k > 0 then k - 1 else 0);
        assert forall i | 1 <= i < |pattern| :: pattern[1..][i - 1] == pattern[i];
      }
    }
  }

  /** Every wildcard filled in with a letter. */
  function Filled(pattern: string): string {
    seq(|pattern|, i requires 0 <= i < |pattern| => if IsToken(pattern[i]) then 'a' else pattern[i])
  }

  lemma {:induction false} FilledMatches(pattern: string)
    requires '[' !in pattern
    ensures Glob(Filled(pattern), pattern)
  {
    if pattern != [] {
      FilledMatches(pattern[1..]);
      assert Filled(pattern)[1..] == Filled(pattern[1..]);
      if pattern[0] == '*' { assert Glob(Filled(pattern)[1..], pattern[1..]); }
    }
  }

  /** A pattern that ends in a star and any number of question marks matches itself and anything longer. */
  lemma {:induction false} OpenEndMatchesLonger(pattern: string, k: nat, more: string)
    requires '[' !in pattern && 0 < k <= |pattern| && pattern[k - 1] == '*' && forall i | k <= i < |pattern| :: pattern[i] == '?'
    ensures Glob(pattern + more, pattern)
    decreases |pattern|
  {
    var path := pattern + more;
    assert path[1..] == pattern[1..] + more;
    if k > 1 {
      OpenEndMatchesLonger(pattern[1..], k - 1, more);
      if pattern[0] == '*' { assert Glob(path[1..], pattern); }
    } else {
      StarMatches(path, pattern[1..]);
      assert pattern == "*" + pattern[1..];
    }
  }

  lemma {:induction false} StarMatches(path: string, marks: string)
    requires |path| >= |marks| && forall i | 0 <= i < |marks| :: marks[i] == '?'
    ensures Glob(path, "*" + marks)
    decreases |path|
  {
    assert ("*" + marks)[1..] == marks;
    if |path| == |marks| { MarksMatch(path, marks); } else { StarMatches(path[1..], marks); }
  }

  lemma {:induction false} MarksMatch(path: string, marks: string)
    requires |path| == |marks| && forall i | 0 <= i < |marks| :: marks[i] == '?'
    ensures Glob(path, marks)
  {
    if marks != [] { MarksMatch(path[1..], marks[1..]); }
  }

  lemma PrefixOfLonger(pattern: string, more: string)
    requires HasToken(pattern)
    ensures HasToken(pattern + more) && LiteralPrefix(pattern + more) == LiteralPrefix(pattern)
  {
    var t := PrefixShape(pattern);
    assert IsToken((pattern + more)[t]);
    var u := PrefixShape(pattern + more);
    assert forall i | 0 <= i < |pattern| :: (pattern + more)[i] == pattern[i];
    var p, q := LiteralPrefix(pattern), LiteralPrefix(pattern + more);
    assert |p| == |q|;
  }

  /** Just past the last star. */
  function AfterLastStar(pattern: string): (k: nat)
    ensures k <= |pattern| && (k > 0 ==> pattern[k - 1] == '*')
    ensures forall i | k <= i < |pattern| :: pattern[i] != '*'
  {
    if pattern == [] then 0
    else if pattern[|pattern| - 1] == '*' then |pattern|
    else AfterLastStar(pattern[..|pattern| - 1])
  }

  /** Neither the literal prefix nor anything the pattern does not match is contained in it. */
  lemma UnrootedContainsOnlyMatches(x: string, z: string)
    requires IsPattern(x) && !Rooted(x) && !HasToken(z) && !Glob(z, x)
    ensures !Contains(x, z)
  {
    UnrootedShape(x);
  }

  lemma UnrootedShape(x: string)
    requires IsPattern(x) && !Rooted(x)
    ensures HasToken(x) && LiteralPrefix(x) != [] && IsPattern(LiteralPrefix(x)) && !HasToken(LiteralPrefix(x))
    ensures !EndsWith(x, "/**")
  {
    if HasToken(x) { PrefixIsPattern(x); } else { LiteralIsItsPrefix(x, 0, 0); }
    var t := PrefixShape(x);
  }

  /** An open end: the pattern contains everything below itself, and with it the prefix it does not contain. */
  lemma OpenEndEscapes(x: string, k: nat)
    requires IsPattern(x) && !Rooted(x)
    requires 0 < k <= |x| && x[k - 1] == '*' && forall i | k <= i < |x| :: x[i] == '?'
    ensures !TransitiveFrom(x)
  {
    UnrootedShape(x);
    var y, z := x + "/**", LiteralPrefix(x);
    OpenEndMatchesLonger(x, k, "/**");
    PrefixOfLonger(x, "/**");
    LiteralIsItsPrefix(z, 0, 0);
    assert EndsWith(y, "/**") by { assert y[|y| - 3..] == "/**"; }
    assert Contains(x, y) && Contains(y, z);
    if Glob(z, x) { MatchIsUnderPrefix(z, x); }
    UnrootedContainsOnlyMatches(x, z);
    ExtendedIsPattern(x, "/**");
  }

  /** A slash and one more part of plain letters. */
  predicate IsPlainPart(more: string) {
    && |more| > 1 && more[0] == '/'
    && forall i | 1 <= i < |more| :: more[i] in {'*', 'a', 'b'}
  }

  lemma ExtendedIsPattern(x: string, more: string)
    requires IsPattern(x) && IsPlainPart(more)
    ensures IsPattern(x + more)
  {
    var y := x + more;
    forall i | 0 <= i < |y| ensures !IsDotDot(y, i) {
      assert IsDotDot(y, i) ==> IsDotDot(x, i);
    }
    forall i | 0 < i < |y| && y[i] == '/' ensures y[i - 1] != '/' && !IsBlank(y[i - 1]) {
      assert i <= |x| && y[i - 1] == x[i - 1];
    }
    forall i | 0 < i < |y| && y[i - 1] == '/' ensures !IsBlank(y[i]) {
      if i < |x| { assert x[i - 1] == '/'; } else { assert y[i] == more[i - |x|]; }
    }
    assert |x| == 1 ==> x == [y[0]];
    assert |x| > 1 ==> x[..2] == y[..2];
  }

  lemma PrefixIsPattern(x: string)
    requires IsPattern(x) && HasToken(x) && LiteralPrefix(x) != []
    ensures IsPattern(LiteralPrefix(x))
  {
    var t := PrefixShape(x);
    var p := LiteralPrefix(x);
    forall i | 0 <= i < |p| ensures p[i] == x[i] { assert p == x[..|p|]; }
    assert x[|p|] == '/' && x[|p| - 1] != '/';
    forall i | 0 <= i < |p| ensures !IsDotDot(p, i) {
      assert IsDotDot(p, i) ==> IsDotDot(x, i);
    }
    assert p == "." ==> "./" <= x;
  }

  /** A closed end: a path the pattern matches contains paths below it that the pattern does not match. */
  lemma ClosedEndEscapes(x: string, k: nat)
    requires IsPattern(x) && !Rooted(x)
    requires k <= |x| && forall i | k <= i < |x| :: x[i] != '*'
    requires k > 0 ==> exists j | k <= j < |x| :: x[j] != '?'
    ensures !TransitiveFrom(x)
  {
    var j: nat := if k > 0 then var j :| k <= j < |x| && x[j] != '?'; j else 0;
    var letter := if x[j] == 'a' then 'b' else 'a';
    var more := "/" + seq(|x| - j, _ => letter);
    var y := Filled(x);
    var z := y + more;
    FilledMatches(x);
    FilledIsPattern(x);
    ExtendedIsPattern(y, more);
    assert !HasToken(z);
    assert y + "/" <= z;
    assert z[|z| - |x| + j] == letter;
    if Glob(z, x) { MatchRepeatsTail(z, x, k); }
    UnrootedContainsOnlyMatches(x, z);
    assert Contains(x, y) && Contains(y, z);
  }

  lemma FilledIsPattern(x: string)
    requires IsPattern(x)
    ensures IsPattern(Filled(x)) && !HasToken(Filled(x))
  {
    var y := Filled(x);
    assert forall i | 0 <= i < |x| :: (y[i] == '/' <==> x[i] == '/') && (y[i] == '.' <==> x[i] == '.') && (IsBlank(y[i]) <==> IsBlank(x[i]));
    forall i | 0 <= i < |y| ensures !IsDotDot(y, i) {
      assert IsDotDot(y, i) ==> IsDotDot(x, i);
    }
    assert "./" <= y ==> "./" <= x;
  }

  /** Containment is transitive from a pattern exactly when it is rooted: what it contains can then be
      narrowed further without ever leaving it. */
  lemma TransitiveExactlyFromRooted(x: string)
    requires IsPattern(x)
    ensures TransitiveFrom(x) <==> Rooted(x)
  {
    if Rooted(x) {
      forall y, z | IsPattern(y) && IsPattern(z) && Contains(x, y) && Contains(y, z) ensures Contains(x, z) {
        RootedIsTransitive(x, y, z);
      }
    } else {
      var k := AfterLastStar(x);
      if k > 0 && forall i | k <= i < |x| :: x[i] == '?' {
        OpenEndEscapes(x, k);
      } else {
        ClosedEndEscapes(x, k);
      }
    }
  }
}
