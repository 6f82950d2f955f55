/** Small shared vocabulary. */
module Common {

  datatype Option<+T> = None | Some(value: T)

  datatype Result<+T, +E> = Success(value: T) | Failure(error: E)

  function Members<T>(s: seq<T>): set<T> {
    set x | x in s
  }

  predicate EndsWith(s: string, suffix: string) {
    |suffix| <= |s| && s[|s| - |suffix|..] == suffix
  }

  lemma {:induction false} SubsetSize<T>(a: set<T>, b: set<T>)
    requires a <= b
    ensures |a| <= |b|
  {
    if a != {} {
      var x :| x in a;
      SubsetSize(a - {x}, b - {x});
    }
  }

  lemma EmptyMeetIsDisjoint<T>(a: set<T>, b: set<T>)
    requires a * b == {}
    ensures a !! b
  {
    assert forall x | x in a && x in b :: x in a * b;
  }

  /* ------------------------------------------------------ numbers of a set */

  /** The largest number of a set, zero for none. */
  ghost function Largest(s: set<nat>): (m: nat)
    ensures s == {} ==> m == 0
    ensures s != {} ==> m in s && forall n | n in s :: n <= m
  {
    if s == {} then 0
    else
      var n :| n in s;
      var rest := Largest(s - {n});
      assert s == (s - {n}) + {n};
      if rest > n then rest else n
  }

  lemma LargestAfterInsert(s: set<nat>, n: nat)
    ensures Largest(s + {n}) == if n > Largest(s) then n else Largest(s)
  {
    assert n in s + {n};
    if s != {} { assert Largest(s) in s + {n}; }
  }

  function OneTo(n: nat): (s: set<nat>)
    ensures forall i: nat :: i in s <==> 1 <= i <= n
  {
    if n == 0 then {} else OneTo(n - 1) + {n}
  }

  lemma LargestOfOneTo(n: nat)
    ensures Largest(OneTo(n)) == n
  {
    if n > 0 { assert n in OneTo(n); }
  }

  method FindLargest(s: set<nat>) returns (m: nat)
    ensures m == Largest(s)
  {
    m := 0;
    var rest := s;
    while rest != {}
      invariant rest <= s && m == Largest(s - rest)
      decreases |rest|
    {
      var n :| n in rest;
      LargestAfterInsert(s - rest, n);
      assert s - (rest - {n}) == (s - rest) + {n};
      m := if n > m then n else m;
      rest := rest - {n};
    }
    assert s - rest == s;
  }

  /* --------------------------------------------------------------------- text */

  /** White space as stripping removes it. */
  predicate IsBlank(c: char) {
    var n := c as int;
    || 0x09 <= n <= 0x0D || 0x1C <= n <= 0x20 || n == 0x85 || n == 0xA0 || n == 0x1680
    || 0x2000 <= n <= 0x200A || n == 0x2028 || n == 0x2029 || n == 0x202F || n == 0x205F || n == 0x3000
  }

  function StripLeft(s: string): string {
    if s != [] && IsBlank(s[0]) then StripLeft(s[1..]) else s
  }

  function StripRight(s: string): string {
    if s != [] && IsBlank(s[|s| - 1]) then StripRight(s[..|s| - 1]) else s
  }

  function Strip(s: string): string {
    StripRight(StripLeft(s))
  }

  lemma {:induction false} StripRightKeepsFirst(s: string)
    requires s != [] && !IsBlank(s[0])
    ensures StripRight(s) != []
  {
    if IsBlank(s[|s| - 1]) { StripRightKeepsFirst(s[..|s| - 1]); }
  }

  ghost predicate IsAllBlank(s: string) {
    forall i | 0 <= i < |s| :: IsBlank(s[i])
  }

  lemma BlankAppend(s: string, c: char)
    requires IsAllBlank(s) && IsBlank(c)
    ensures IsAllBlank(s + [c])
  {
  }

  lemma {:induction false} StripLeftTakes(s: string) returns (blank: string)
    ensures s == blank + StripLeft(s) && IsAllBlank(blank)
    ensures StripLeft(s) != [] ==> !IsBlank(StripLeft(s)[0])
  {
    if s != [] && IsBlank(s[0]) {
      var rest := StripLeftTakes(s[1..]);
      blank := [s[0]] + rest;
      assert blank + StripLeft(s) == [s[0]] + (rest + StripLeft(s[1..])) == s;
    } else {
      blank := "";
    }
  }

  lemma {:induction false} StripRightTakes(s: string) returns (blank: string)
    ensures s == StripRight(s) + blank && IsAllBlank(blank)
    ensures StripRight(s) != [] ==> !IsBlank(StripRight(s)[|StripRight(s)| - 1])
  {
    if s != [] && IsBlank(s[|s| - 1]) {
      var init, last := s[..|s| - 1], s[|s| - 1];
      var rest := StripRightTakes(init);
      blank := rest + [last];
      BlankAppend(rest, last);
      assert StripRight(s) + blank == (StripRight(init) + rest) + [last] == s;
    } else {
      blank := "";
    }
  }

  /** Stripping takes blanks off both ends, and all of them. */
  lemma StripExactly(s: string)
    ensures exists before, after :: IsAllBlank(before) && IsAllBlank(after) && s == before + Strip(s) + after
    ensures Strip(s) != "" ==> !IsBlank(Strip(s)[0]) && !IsBlank(Strip(s)[|Strip(s)| - 1])
  {
    var before := StripLeftTakes(s);
    var after := StripRightTakes(StripLeft(s));
    assert s == before + Strip(s) + after;
    if Strip(s) != "" { assert Strip(s)[0] == StripLeft(s)[0]; }
  }

  ghost predicate SaysSomething(s: string) {
    exists j :: 0 <= j < |s| && !IsBlank(s[j])
  }

  lemma AllBlankStripsAway(s: string)
    ensures Strip(s) != "" <==> SaysSomething(s)
  {
    StripExactly(s);
    var before, after :| IsAllBlank(before) && IsAllBlank(after) && s == before + Strip(s) + after;
    if Strip(s) != "" { assert s[|before|] == Strip(s)[0]; }
    if j :| 0 <= j < |s| && !IsBlank(s[j]) {
      assert Strip(s) == "" ==> s == before + after;
    }
  }

  lemma TextIsNotBlank(s: string)
    requires s != [] && !IsBlank(s[0])
    ensures Strip(s) != ""
  {
    StripRightKeepsFirst(s);
  }
}
