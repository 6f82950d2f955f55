/** Snapshot references: `snapshot://<scope>/<scope id>@<revision>`. */
module SnapshotRefs {
  import opened Content

  const SNAPSHOT_PREFIX := "snapshot://"

  const SCOPES: set<string> := {"lane", "coordinator", "conversation", "work_unit", "task", "run"}

  /** The scope column: lanes are stored with tasks, coordinators and conversations with runs. */
  function StorageScope(scope: string): string {
    if scope == "lane" then "task"
    else if scope == "coordinator" || scope == "conversation" then "run"
    else scope
  }

  function Digit(d: nat): char
    requires d < 10
  {
    (d + '0' as int) as char
  }

  function Decimal(n: nat): string {
    if n < 10 then [Digit(n)] else Decimal(n / 10) + [Digit(n % 10)]
  }

  function MakeRef(scope: string, scopeId: string, revision: nat): string {
    SNAPSHOT_PREFIX + scope + "/" + scopeId + "@" + Decimal(revision)
  }

  function UpTo(s: string, stop: char): string {
    if s == [] || s[0] == stop then [] else [s[0]] + UpTo(s[1..], stop)
  }

  function RefScope(ref: string): string {
    UpTo(RemovePrefix(ref, SNAPSHOT_PREFIX), '/')
  }

  lemma {:induction false} DecimalHasOnlyDigits(n: nat)
    ensures forall c | c in Decimal(n) :: '0' <= c <= '9'
  {
    if n >= 10 { DecimalHasOnlyDigits(n / 10); }
  }

  lemma {:induction false} DecimalIsInjective(m: nat, n: nat)
    requires Decimal(m) == Decimal(n)
    ensures m == n
  {
    var last := Decimal(m)[|Decimal(m)| - 1];
    assert last == Digit(m % 10) && last == Digit(n % 10);
    if m >= 10 && n >= 10 {
      assert Decimal(m)[..|Decimal(m)| - 1] == Decimal(m / 10);
      assert Decimal(n)[..|Decimal(n)| - 1] == Decimal(n / 10);
      DecimalIsInjective(m / 10, n / 10);
    }
  }

  lemma {:induction false} UpToStops(s: string, stop: char, rest: string)
    requires stop !in s
    ensures UpTo(s + [stop] + rest, stop) == s
  {
    var whole := s + [stop] + rest;
    if s != [] {
      assert whole[1..] == s[1..] + [stop] + rest;
      UpToStops(s[1..], stop, rest);
    }
  }

  lemma ScopesHaveNoSlash(scope: string)
    requires scope in SCOPES
    ensures '/' !in scope
  {
  }

  lemma MadeRefNamesItsScope(scope: string, scopeId: string, revision: nat)
    requires scope in SCOPES
    ensures RefScope(MakeRef(scope, scopeId, revision)) == scope
  {
    ScopesHaveNoSlash(scope);
    var tail := scopeId + "@" + Decimal(revision);
    assert MakeRef(scope, scopeId, revision) == SNAPSHOT_PREFIX + (scope + ['/'] + tail);
    UpToStops(scope, '/', tail);
  }

  lemma SplitAtLast(a: string, b: string, x: string, y: string)
    requires a + "@" + x == b + "@" + y
    requires '@' !in x && '@' !in y
    ensures a == b && x == y
  {
    var s := a + "@" + x;
    assert s[|a|] == '@' && s[|b|] == '@';
    assert x == s[|a| + 1..] && y == s[|b| + 1..];
    assert |a| == |b|;
    assert a == s[..|a|] && b == s[..|b|];
  }

  /** A reference determines the scope, the scope id and the revision it was made from. */
  lemma MadeRefsAreDistinct(s: string, i: string, m: nat, t: string, j: string, n: nat)
    requires s in SCOPES && t in SCOPES
    requires MakeRef(s, i, m) == MakeRef(t, j, n)
    ensures s == t && i == j && m == n
  {
    MadeRefNamesItsScope(s, i, m);
    MadeRefNamesItsScope(t, j, n);
    var head := SNAPSHOT_PREFIX + s + "/";
    assert MakeRef(s, i, m)[|head|..] == i + "@" + Decimal(m);
    assert MakeRef(t, j, n)[|head|..] == j + "@" + Decimal(n);
    DecimalHasOnlyDigits(m);
    DecimalHasOnlyDigits(n);
    SplitAtLast(i, j, Decimal(m), Decimal(n));
    DecimalIsInjective(m, n);
  }

  /** References that already are snapshot references are left alone. */
  lemma MadeRefIsNormal(scope: string, scopeId: string, revision: nat)
    ensures RefValue(MakeRef(scope, scopeId, revision)) == MakeRef(scope, scopeId, revision)
  {
    var ref := MakeRef(scope, scopeId, revision);
    assert ref[0] == 's' && "context://"[0] == 'c';
  }
}
