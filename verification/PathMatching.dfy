/** What shell-style matching, containment and the normal form of a pattern come to. */
module PathMatching {
  import opened Common
  import opened PathPolicy
  import opened PathRoots

  function Joined(pieces: seq<string>): string {
    if pieces == [] then "" else pieces[0] + Joined(pieces[1..])
  }

  /** The piece is one the pattern's character stands for: any text for a star, one character for a
      question mark, and otherwise the character itself. */
  predicate StandsFor(c: char, piece: string) {
    if c == '*' then true else if c == '?' then |piece| == 1 else piece == [c]
  }

  ghost predicate CutsInto(path: string, pattern: string, pieces: seq<string>) {
    |pieces| == |pattern| && Joined(pieces) == path && forall i | 0 <= i < |pattern| :: StandsFor(pattern[i], pieces[i])
  }

  lemma {:induction false} GlobCuts(path: string, pattern: string) returns (pieces: seq<string>)
    requires Glob(path, pattern)
    ensures CutsInto(path, pattern, pieces)
    decreases |path| + |pattern|
  {
    if pattern == [] {
      pieces := [];
    } else if pattern[0] == '*' && !Glob(path, pattern[1..]) {
      pieces := GlobCuts(path[1..], pattern);
      var first := [path[0]] + pieces[0];
      assert Joined(pieces) == pieces[0] + Joined(pieces[1..]);
      assert ([first] + pieces[1..])[1..] == pieces[1..];
      assert first + Joined(pieces[1..]) == [path[0]] + path[1..] == path;
      pieces := [first] + pieces[1..];
    } else {
      var n := if pattern[0] == '*' then 0 else 1;
      var rest := GlobCuts(path[n..], pattern[1..]);
      pieces := [path[..n]] + rest;
      assert pieces[1..] == rest && path == path[..n] + path[n..];
      forall i | 0 <= i < |pattern| ensures StandsFor(pattern[i], pieces[i]) {
        if i > 0 { assert pattern[i] == pattern[1..][i - 1] && pieces[i] == rest[i - 1]; }
      }
    }
  }

  lemma {:induction false} CutsGlob(path: string, pattern: string, pieces: seq<string>)
    requires CutsInto(path, pattern, pieces)
    ensures Glob(path, pattern)
    decreases |path| + |pattern|
  {
    if pattern != [] {
      var first, rest := pieces[0], pieces[1..];
      assert path == first + Joined(rest);
      if pattern[0] == '*' && first != [] {
        var shorter := [first[1..]] + rest;
        assert shorter[1..] == rest && path[1..] == first[1..] + Joined(rest);
        CutsGlob(path[1..], pattern, shorter);
      } else {
        assert path[|first|..] == Joined(rest);
        forall i | 0 <= i < |pattern[1..]| ensures StandsFor(pattern[1..][i], rest[i]) {
          assert pattern[1..][i] == pattern[i + 1] && rest[i] == pieces[i + 1];
        }
        CutsGlob(path[|first|..], pattern[1..], rest);
      }
    }
  }

  /** A path matches exactly when it can be cut into one piece for each character of the pattern; a star
      stands for any text, slashes included. */
  lemma GlobExactly(path: string, pattern: string)
    ensures Glob(path, pattern) <==> exists pieces :: CutsInto(path, pattern, pieces)
  {
    if Glob(path, pattern) { var _ := GlobCuts(path, pattern); }
    if pieces :| CutsInto(path, pattern, pieces) { CutsGlob(path, pattern, pieces); }
  }

  /** A pattern that ends in a double star matches its base and what is below it. */
  lemma SubtreeMatchesExactly(base: string, path: string)
    requires !EndsInSlash(base)
    ensures Matches(path, base + "/**") <==> path == base || base + "/" <= path
  {
    var pattern := base + "/**";
    assert pattern[|pattern| - 3..] == "/**" && pattern[..|pattern| - 3] == base;
    TrimOfTrimmed(base);
  }

  lemma ChildOfMatchIsUnder(outer: string, child: string)
    requires HasToken(outer) && LiteralPrefix(outer) != [] && Glob(child, outer)
    ensures Under(LiteralPrefix(outer), LiteralPrefix(child))
  {
    MatchIsUnderPrefix(child, outer);
    var t := PrefixShape(outer);
    AboveIsAbovePrefix(LiteralPrefix(outer), child);
  }

  /** A pattern that is not rooted contains itself and what it matches, wildcards and all; a rooted one
      contains itself, and everything when its first part has a wildcard, or else what lies under its
      literal prefix. */
  lemma ContainsExactly(outer: string, child: string)
    requires IsPattern(outer)
    ensures Contains(outer, child) <==>
      || outer == child
      || (if HasToken(outer) && !WildcardFirst(outer) && !EndsWith(outer, "/**") then Glob(child, outer)
          else WildcardFirst(outer) || Under(LiteralPrefix(outer), LiteralPrefix(child)))
  {
    RootedReads(outer);
    PrefixIsEmptyExactly(outer);
    if Rooted(outer) {
      TrimOfTrimmed(LiteralPrefix(outer));
      if Contains(outer, child) { ContainedIsUnder(outer, child); }
      if WildcardFirst(outer) || Under(LiteralPrefix(outer), LiteralPrefix(child)) { RootedContainsWhatIsUnder(outer, child); }
    } else if Glob(child, outer) {
      ChildOfMatchIsUnder(outer, child);
    }
  }

  /* ----------------------------------------------------------------- normal form */

  /** One part of the text is two dots. */
  ghost predicate Climbs(text: string) {
    || text == ".."
    || (exists rest :: text == "../" + rest)
    || (exists start :: text == start + "/..")
    || (exists start, rest :: text == start + "/../" + rest)
  }

  lemma ClimbsExactly(text: string)
    ensures HasDotDot(text) <==> Climbs(text)
  {
    if HasDotDot(text) {
      var i :| 0 <= i < |text| && IsDotDot(text, i);
      var rest := text[i + 2..];
      assert text == text[..i] + ".." + rest;
      if i > 0 { assert text[..i] == text[..i - 1] + "/"; }
      if rest != [] { assert rest == "/" + rest[1..]; }
      if i == 0 && rest != [] { assert text == "../" + rest[1..]; }
      if i > 0 && rest == [] { assert text == text[..i - 1] + "/.."; }
      if i > 0 && rest != [] { assert text == text[..i - 1] + "/../" + rest[1..]; }
    }
    if Climbs(text) {
      if text == ".." || exists rest :: text == "../" + rest {
        assert IsDotDot(text, 0);
      } else if start :| text == start + "/.." {
        assert IsDotDot(text, |start| + 1);
      } else {
        var start, rest :| text == start + "/../" + rest;
        assert text[|start| + 1..] == "../" + rest;
        assert IsDotDot(text, |start| + 1);
      }
    }
  }

  ghost predicate IsAllSlashes(s: string) {
    forall i | 0 <= i < |s| :: s[i] == '/'
  }

  /** Any number of times a dot and a slash. */
  ghost predicate IsHere(s: string) {
    s == "" || ("./" <= s && IsHere(s[2..]))
  }

  lemma {:induction false} DropsHere(s: string) returns (here: string)
    ensures IsHere(here) && s == here + DropDotSlash(s) && !("./" <= DropDotSlash(s))
  {
    here := "";
    if "./" <= s {
      var more := DropsHere(s[2..]);
      here := "./" + more;
      assert s == "./" + s[2..] && here[2..] == more;
    }
  }

  lemma {:induction false} TrimLeftTakes(s: string) returns (slashes: string)
    ensures IsAllSlashes(slashes) && s == slashes + TrimLeftSlashes(s)
    ensures TrimLeftSlashes(s) != [] ==> TrimLeftSlashes(s)[0] != '/'
  {
    slashes := "";
    if s != [] && s[0] == '/' {
      var more := TrimLeftTakes(s[1..]);
      slashes := "/" + more;
      assert s == "/" + s[1..];
    }
  }

  lemma TrimTakes(s: string) returns (slashes: string)
    ensures IsAllSlashes(slashes) && s == TrimSlashes(s) + slashes && !EndsInSlash(TrimSlashes(s))
  {
    TrimIsPrefix(s);
    slashes := s[|TrimSlashes(s)|..];
  }

  /** The text as it is written, with slashes for backslashes: white space, repeated `./`, slashes, the
      pattern itself, slashes and white space. */
  ghost predicate IsWrittenFor(s: string, before: string, here: string, lead: string, text: string, tail: string, after: string) {
    && |s| == |before| + |here| + |lead| + |text| + |tail| + |after|
    && (forall i | 0 <= i < |s| :: (before + here + lead + text + tail + after)[i] == if s[i] == '\\' then '/' else s[i])
    && IsAllBlank(before) && IsHere(here) && IsAllSlashes(lead) && IsAllSlashes(tail) && IsAllBlank(after)
  }

  /** Nothing more can be taken off. */
  ghost predicate IsBare(here: string, lead: string, text: string, tail: string) {
    && !("./" <= lead + text + tail)
    && (text != "" ==> text[0] != '/' && text[|text| - 1] != '/')
    && (here + lead + text + tail != "" ==>
          var whole := here + lead + text + tail; !IsBlank(whole[0]) && !IsBlank(whole[|whole| - 1]))
  }

  ghost predicate ComesTo(s: string, text: string) {
    exists before, here, lead, tail, after ::
      IsWrittenFor(s, before, here, lead, text, tail, after) && IsBare(here, lead, text, tail)
  }

  lemma BareReads(bare: string) returns (lead: string, text: string, tail: string)
    requires !("./" <= bare)
    ensures text == TrimSlashes(TrimLeftSlashes(bare))
    ensures bare == lead + text + tail && IsAllSlashes(lead) && IsAllSlashes(tail)
    ensures text != "" ==> text[0] != '/' && text[|text| - 1] != '/'
  {
    lead := TrimLeftTakes(bare);
    var right := TrimLeftSlashes(bare);
    tail := TrimTakes(right);
    text := TrimSlashes(right);
    assert text != "" ==> text[0] == right[0];
    assert lead + (text + tail) == lead + text + tail;
  }

  lemma CoreReads(core: string) returns (here: string, lead: string, text: string, tail: string)
    requires core != "" ==> !IsBlank(core[0]) && !IsBlank(core[|core| - 1])
    ensures text == TrimSlashes(TrimLeftSlashes(DropDotSlash(core)))
    ensures core == here + lead + text + tail && IsHere(here) && IsAllSlashes(lead) && IsAllSlashes(tail)
    ensures IsBare(here, lead, text, tail)
  {
    here := DropsHere(core);
    var bare := DropDotSlash(core);
    lead, text, tail := BareReads(bare);
    FourPieces(here, lead, text, tail);
    NothingMoreComesOff(core, here, lead, text, tail, bare);
  }

  lemma FourPieces(here: string, lead: string, text: string, tail: string)
    ensures here + (lead + text + tail) == here + lead + text + tail
  {
  }

  lemma NothingMoreComesOff(core: string, here: string, lead: string, text: string, tail: string, bare: string)
    requires core == here + lead + text + tail && bare == lead + text + tail && !("./" <= bare)
    requires core != "" ==> !IsBlank(core[0]) && !IsBlank(core[|core| - 1])
    requires text != "" ==> text[0] != '/' && text[|text| - 1] != '/'
    ensures IsBare(here, lead, text, tail)
  {
  }

  lemma SixPieces(before: string, here: string, lead: string, text: string, tail: string, after: string)
    ensures before + (here + lead + text + tail) + after == before + here + lead + text + tail + after
  {
  }

  /** The normal form is what is left between white space, `./` and slashes; there is none when nothing is
      left, or a dot, or something that climbs. */
  lemma NormalizeReads(s: string) returns (text: string)
    ensures ComesTo(s, text)
    ensures Normalize(s) == if text == "" || text == "." || Climbs(text) then None else Some(text)
  {
    var flat := WithSlashes(s);
    StripExactly(flat);
    var before, after :| IsAllBlank(before) && IsAllBlank(after) && flat == before + Strip(flat) + after;
    var here, lead, tail;
    here, lead, text, tail := CoreReads(Strip(flat));
    SixPieces(before, here, lead, text, tail, after);
    assert IsWrittenFor(s, before, here, lead, text, tail, after);
    ClimbsExactly(text);
  }
}
