/** The two snapshot queries of the store (supersession lookup and the breadth-first walk
    over recorded inputs) and the fixpoint that decides what a change invalidates. */
module Invalidation {
  import opened Common
  import opened Json
  import opened Content
  import opened Snapshots

  /** Look a reference up in the supersession table until it is not superseded.  The cycle
      error is never reached: every step goes to a newer row. */
  method ResolveSnapshotRef(t: Tables, ref: string) returns (resolved: string, cycle: bool)
    requires Sound(t)
    ensures !cycle && resolved == Resolve(t, ref)
  {
    var current := ref;
    var seen: set<string> := {};
    while current !in seen
      invariant Resolve(t, current) == Resolve(t, ref)
      invariant seen <= t.rows.Keys
      invariant seen != {} ==> current in t.rows
      invariant forall s | s in seen :: t.rows[s].rowid < t.rows[current].rowid
      decreases t.rows.Keys - seen, current !in t.supersessions
    {
      if current !in t.supersessions {
        return current, false;
      }
      assert EdgeOk(t, current);
      seen := seen + {current};
      current := t.supersessions[current];
    }
    assert false;
    return current, true;
  }

  /* -------------------------------------------------- transitive dependents */

  /** Every snapshot that records an input among the roots or the set is in the set. */
  ghost predicate ClosedUnderInputs(inputRows: map<string, set<string>>, roots: set<string>, found: set<string>) {
    forall s {:trigger s in found} | s in inputRows && inputRows[s] * (roots + found) != {} :: s in found
  }

  ghost predicate AreDependents(inputRows: map<string, set<string>>, roots: set<string>, found: set<string>) {
    && ClosedUnderInputs(inputRows, roots, found)
    && forall other | ClosedUnderInputs(inputRows, roots, other) :: found <= other
  }

  method ListSnapshotDependents(inputRows: map<string, set<string>>, roots: set<string>, transitive: bool)
    returns (found: set<string>)
    ensures found <= inputRows.Keys
    ensures transitive ==> AreDependents(inputRows, roots, found)
    ensures !transitive ==> found == set s | s in inputRows && inputRows[s] * roots != {}
  {
    var frontier := roots;
    found := {};
    while frontier != {}
      invariant found <= inputRows.Keys
      invariant frontier <= roots + found
      invariant found == {} ==> frontier == roots || frontier == {}
      invariant forall s {:trigger s in found} | s in inputRows && inputRows[s] * (roots + found - frontier) != {} :: s in found
      invariant forall other | ClosedUnderInputs(inputRows, roots, other) :: found <= other
      invariant !transitive ==> found == {} && frontier == roots
      decreases inputRows.Keys - found, frontier
    {
      var current := (set s | s in inputRows && inputRows[s] * frontier != {}) - found;
      forall other | ClosedUnderInputs(inputRows, roots, other) ensures current <= other {
        assert frontier <= roots + other;
        forall s | s in current ensures s in other {
          assert inputRows[s] * frontier <= inputRows[s] * (roots + other);
        }
      }
      ghost var before := found;
      found := found + current;
      if !transitive {
        return;
      }
      forall s | s in inputRows && inputRows[s] * (roots + found - current) != {} ensures s in found {
        var i :| i in inputRows[s] * (roots + found - current);
        assert i in inputRows[s] * frontier || i in inputRows[s] * (roots + before - frontier);
      }
      frontier := current;
    }
    assert roots + found - frontier == roots + found;
    if roots == {} { assert found == {} || transitive; }
  }

  /** A chain of recorded inputs from a root to the last snapshot of the path. */
  ghost predicate IsInputPath(inputRows: map<string, set<string>>, roots: set<string>, path: seq<string>) {
    && |path| >= 2 && path[0] in roots
    && forall i | 1 <= i < |path| :: path[i] in inputRows && path[i - 1] in inputRows[path[i]]
  }

  ghost predicate DependsOn(inputRows: map<string, set<string>>, roots: set<string>, s: string) {
    exists path :: IsInputPath(inputRows, roots, path) && path[|path| - 1] == s
  }

  lemma {:induction false} PathStaysInside(inputRows: map<string, set<string>>, roots: set<string>, found: set<string>, path: seq<string>)
    requires ClosedUnderInputs(inputRows, roots, found)
    requires IsInputPath(inputRows, roots, path)
    ensures path[|path| - 1] in found
  {
    var last := |path| - 1;
    if last > 1 {
      PathStaysInside(inputRows, roots, found, path[..last]);
    }
    assert path[last - 1] in inputRows[path[last]] * (roots + found);
  }

  lemma DependentsAreClosed(inputRows: map<string, set<string>>, roots: set<string>, reached: set<string>)
    requires reached == set s | s in inputRows && DependsOn(inputRows, roots, s)
    ensures ClosedUnderInputs(inputRows, roots, reached)
  {
    forall s | s in inputRows && inputRows[s] * (roots + reached) != {} ensures s in reached {
      var i :| i in inputRows[s] * (roots + reached);
      if i in roots {
        assert IsInputPath(inputRows, roots, [i, s]);
        assert [i, s][|[i, s]| - 1] == s;
      } else {
        var path :| IsInputPath(inputRows, roots, path) && path[|path| - 1] == i;
        assert IsInputPath(inputRows, roots, path + [s]);
        assert (path + [s])[|path + [s]| - 1] == s;
      }
    }
  }

  /** The walk finds a snapshot exactly when a chain of recorded inputs leads to it from a root. */
  lemma DependentsAreReachable(inputRows: map<string, set<string>>, roots: set<string>, found: set<string>, s: string)
    requires AreDependents(inputRows, roots, found)
    ensures s in found <==> DependsOn(inputRows, roots, s)
  {
    var reached := set r | r in inputRows && DependsOn(inputRows, roots, r);
    DependentsAreClosed(inputRows, roots, reached);
    if DependsOn(inputRows, roots, s) {
      var path :| IsInputPath(inputRows, roots, path) && path[|path| - 1] == s;
      PathStaysInside(inputRows, roots, found, path);
    }
  }

  /* ------------------------------------------------------------ invalidation */

  /** A change event: what it touches, and optionally the scope it is limited to. */
  datatype Change = Change(marker: string, scopeId: Option<string>)

  predicate DirectlyMatches(row: Row, change: Change) {
    || (exists i | i in row.inputs :: MatchesMarker(i, change.marker))
    || ContainsExact(Obj(row.body), change.marker)
    || change.scopeId == Some(row.scopeId)
  }

  predicate IsCurrent(t: Tables, ref: string) {
    ref in t.rows && t.rows[ref].validity.Current?
  }

  /** The set holds the recorded dependents, the current rows the change matches, and the
      current rows that record an input inside the set. */
  ghost predicate ClosedUnderChange(t: Tables, change: Change, dependents: set<string>, invalidated: set<string>) {
    && dependents <= invalidated
    && forall r {:trigger r in invalidated} | IsCurrent(t, r) &&
        (DirectlyMatches(t.rows[r], change) || t.rows[r].inputs * invalidated != {}) :: r in invalidated
  }

  ghost predicate IsInvalidatedSet(t: Tables, change: Change, invalidated: set<string>) {
    exists dependents ::
      && AreDependents(t.inputRows, {change.marker}, dependents)
      && ClosedUnderChange(t, change, dependents, invalidated)
      && forall other | ClosedUnderChange(t, change, dependents, other) :: invalidated <= other
  }

  lemma InvalidatedSetIsUnique(t: Tables, change: Change, a: set<string>, b: set<string>)
    requires IsInvalidatedSet(t, change, a) && IsInvalidatedSet(t, change, b)
    ensures a == b
  {
    var da :| AreDependents(t.inputRows, {change.marker}, da) && ClosedUnderChange(t, change, da, a)
      && forall other | ClosedUnderChange(t, change, da, other) :: a <= other;
    var db :| AreDependents(t.inputRows, {change.marker}, db) && ClosedUnderChange(t, change, db, b)
      && forall other | ClosedUnderChange(t, change, db, other) :: b <= other;
    assert da == db;
  }

  /** Seed with the recorded dependents and the direct matches, then sweep the current rows
      until a sweep adds nothing. */
  method FindInvalidated(t: Tables, change: Change) returns (invalidated: set<string>)
    requires Sound(t)
    ensures invalidated <= t.rows.Keys
    ensures IsInvalidatedSet(t, change, invalidated)
  {
    var dependents := ListSnapshotDependents(t.inputRows, {change.marker}, true);
    invalidated := dependents;
    for n := 0 to |t.order|
      invariant dependents <= invalidated <= t.rows.Keys
      invariant forall i | 0 <= i < n :: IsCurrent(t, t.order[i]) && DirectlyMatches(t.rows[t.order[i]], change) ==> t.order[i] in invalidated
      invariant forall other | ClosedUnderChange(t, change, dependents, other) :: invalidated <= other
    {
      if IsCurrent(t, t.order[n]) && DirectlyMatches(t.rows[t.order[n]], change) {
        invalidated := invalidated + {t.order[n]};
      }
    }
    var changed := true;
    while changed
      invariant dependents <= invalidated <= t.rows.Keys
      invariant forall i | 0 <= i < |t.order| :: IsCurrent(t, t.order[i]) && DirectlyMatches(t.rows[t.order[i]], change) ==> t.order[i] in invalidated
      invariant forall other | ClosedUnderChange(t, change, dependents, other) :: invalidated <= other
      invariant !changed ==> forall i | 0 <= i < |t.order| ::
        IsCurrent(t, t.order[i]) && t.rows[t.order[i]].inputs * invalidated != {} ==> t.order[i] in invalidated
      decreases t.rows.Keys - invalidated, changed
    {
      changed := false;
      ghost var before := invalidated;
      for n := 0 to |t.order|
        invariant dependents <= before <= invalidated <= t.rows.Keys
        invariant changed <==> before != invalidated
        invariant forall other | ClosedUnderChange(t, change, dependents, other) :: invalidated <= other
        invariant !changed ==> forall i | 0 <= i < n ::
          IsCurrent(t, t.order[i]) && t.rows[t.order[i]].inputs * invalidated != {} ==> t.order[i] in invalidated
      {
        var ref := t.order[n];
        if IsCurrent(t, ref) && ref !in invalidated && t.rows[ref].inputs * invalidated != {} {
          forall other | ClosedUnderChange(t, change, dependents, other) ensures ref in other {
            assert t.rows[ref].inputs * invalidated <= t.rows[ref].inputs * other;
          }
          invalidated := invalidated + {ref};
          changed := true;
        }
      }
    }
    forall r | IsCurrent(t, r) && (DirectlyMatches(t.rows[r], change) || t.rows[r].inputs * invalidated != {})
      ensures r in invalidated
    {
      assert RowOk(t, r);
    }
  }
}
