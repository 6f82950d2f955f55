/** Which inputs a written snapshot records, what therefore depends on what, and what an invalidation
    reaches. */
module Lineage {
  import opened Common
  import opened Json
  import opened Content
  import opened SnapshotRefs
  import opened Snapshots
  import opened Invalidation
  import opened KernelRuns
  import opened Occurrences

  /* -------------------------------------------------------------- recorded inputs */

  /** A write records the inputs it is given, as they are spelled in references, the references its body
      names, and its base; unless one of those given is empty, when it records none. */
  lemma WriteRecordsExactly(t: Tables, scope: string, scopeId: string, delta: Fields, base: Option<string>,
                            extra: set<string>, supersedes: Option<string>, reason: Option<string>, r: string)
    requires Sound(t) && scope in SCOPES && (base.Some? ==> base.value in t.rows)
    ensures var after := Append(t, scope, scopeId, delta, base, extra, supersedes, reason);
      var ref := NewRef(t, scope, scopeId);
      && ref in after.inputRows
      && (r in after.inputRows[ref] <==>
            ("" !in extra && (base == Some(r) || Refers(Obj(delta), r) || exists i :: i in extra && RefValue(i) == r)))
  {
    InputRefsExactly(Obj(delta), r);
    InputRefsAreNamed(Obj(delta));
    if base.Some? { assert RowOk(t, base.value); }
    if "" in extra { assert RefValue("") == ""; }
    assert "" in CausalInputs(extra, delta, base) <==> "" in extra;
  }

  /** A build records exactly the given inputs and the references that texts of the stored body are. */
  lemma BuildRecordsExactly(t: Tables, scope: string, scopeId: string, content: Fields, inputs: set<string>, r: string)
    requires Sound(t) && scope in SCOPES && "" !in inputs
    ensures var after := Step(t, Build(scope, scopeId, content, inputs));
      var ref := NewRef(t, scope, scopeId);
      && ref in after.rows && ref in after.inputRows
      && (r in after.inputRows[ref] <==> Refers(Obj(after.rows[ref].body), r) || exists i :: i in inputs && RefValue(i) == r)
  {
    WriteRecordsExactly(t, scope, scopeId, Admitted(content, scopeId), None, inputs, None, None, r);
  }

  /** A derivation records exactly its base and the references the stored delta names. */
  lemma DeriveRecordsExactly(t: Tables, ref: string, delta: Fields, toScope: Option<string>, toScopeId: Option<string>, r: string)
    requires Sound(t) && End(t, ref) in t.rows && OrElse(toScope, RefScope(End(t, ref))) in SCOPES
    ensures var made := NewRef(t, OrElse(toScope, RefScope(End(t, ref))), OrElse(toScopeId, t.rows[End(t, ref)].scopeId));
      var after := Step(t, Derive(ref, delta, toScope, toScopeId));
      && made in after.rows && made in after.inputRows && after.rows[made].base == Some(End(t, ref))
      && (r in after.inputRows[made] <==> r == End(t, ref) || Refers(Obj(after.rows[made].body), r))
  {
    var scopeId := OrElse(toScopeId, t.rows[End(t, ref)].scopeId);
    WriteRecordsExactly(t, OrElse(toScope, RefScope(End(t, ref))), scopeId, Admitted(delta, scopeId), Some(End(t, ref)), {}, None, None, r);
  }

  /** So does a promotion. */
  lemma PromoteRecordsExactly(t: Tables, ref: string, scope: string, toScopeId: Option<string>, r: string)
    requires Sound(t) && End(t, ref) in t.rows && scope in SCOPES
    ensures var made := NewRef(t, scope, OrElse(toScopeId, t.rows[End(t, ref)].scopeId));
      var after := Step(t, Promote(ref, scope, toScopeId));
      && made in after.rows && made in after.inputRows && after.rows[made].base == Some(End(t, ref))
      && (r in after.inputRows[made] <==> r == End(t, ref) || Refers(Obj(after.rows[made].body), r))
  {
    var end := End(t, ref);
    WriteRecordsExactly(t, scope, OrElse(toScopeId, t.rows[end].scopeId), Fold(t, end), Some(end), {}, None, None, r);
  }

  lemma SpelledOnce(s: string)
    ensures RefValue(RefValue(s)) == RefValue(s)
  {
    assert "snapshot://"[0] != "context://"[0];
  }

  /** A rewrite records exactly the references its content names. */
  lemma RewriteRecordsExactly(t: Tables, end: string, content: Fields, reason: string, r: string)
    requires Sound(t) && end in t.rows
    ensures var made := NewRef(t, RefScope(end), t.rows[end].scopeId);
      var after := Rewritten(t, end, content, reason);
      made in after.inputRows && (r in after.inputRows[made] <==> Refers(Obj(content), r))
  {
    assert RowOk(t, end);
    InputRefsAreNamed(Obj(content));
    WriteRecordsExactly(t, RefScope(end), t.rows[end].scopeId, content, None, InputRefs(Obj(content)), Some(end), Some(reason), r);
    forall i | i in InputRefs(Obj(content)) ensures RefValue(i) == i {
      InputRefsExactly(Obj(content), i);
      var path, s {:trigger AtPath(Obj(content), path), RefValue(s)} :|
        AtPath(Obj(content), path) == Some(Text(s)) && IsPublic(path) && IsReference(s) && RefValue(s) == i;
      SpelledOnce(s);
    }
    InputRefsExactly(Obj(content), r);
  }

  /* --------------------------------------------------------- derived from a snapshot */

  /** The snapshot is built on the other, over any number of bases. */
  ghost predicate IsBuiltOn(t: Tables, d: string, a: string)
    requires Sound(t)
  {
    d in t.rows && d != a && a in Chain(t, d)
  }

  lemma BuiltOnBase(t: Tables, d: string, a: string)
    requires Sound(t) && IsBuiltOn(t, d, a)
    ensures var base := t.rows[d].base;
      && base.Some? && base.value in t.rows && t.rows[base.value].rowid < t.rows[d].rowid
      && d in t.inputRows && base.value in t.inputRows[d]
      && (base.value == a || IsBuiltOn(t, base.value, a))
  {
    assert RowOk(t, d);
  }

  lemma InputDepends(inputRows: map<string, set<string>>, roots: set<string>, i: string, d: string)
    requires d in inputRows && i in inputRows[d] && (i in roots || DependsOn(inputRows, roots, i))
    ensures DependsOn(inputRows, roots, d)
  {
    if i in roots {
      assert IsInputPath(inputRows, roots, [i, d]);
    } else {
      var path :| IsInputPath(inputRows, roots, path) && path[|path| - 1] == i;
      assert IsInputPath(inputRows, roots, path + [d]);
    }
  }

  lemma {:induction false} BuiltOnDepends(t: Tables, d: string, a: string)
    requires Sound(t) && IsBuiltOn(t, d, a)
    ensures DependsOn(t.inputRows, {a}, d)
    decreases t.rows[d].rowid
  {
    BuiltOnBase(t, d, a);
    var base := t.rows[d].base.value;
    if base != a { BuiltOnDepends(t, base, a); }
    InputDepends(t.inputRows, {a}, base, d);
  }

  lemma MarkedIsNotCurrent(t: Tables, refs: set<string>, identity: string, d: string)
    requires d in refs || !IsCurrent(t, d)
    ensures !IsCurrent(Mark(t, refs, Stale, identity), d)
  {
  }

  lemma DependentIsInvalidated(t: Tables, change: Change, reached: set<string>, d: string)
    requires IsInvalidatedSet(t, change, reached) && DependsOn(t.inputRows, {change.marker}, d)
    ensures d in reached
  {
    var dependents :| AreDependents(t.inputRows, {change.marker}, dependents) && ClosedUnderChange(t, change, dependents, reached)
      && forall other | ClosedUnderChange(t, change, dependents, other) :: reached <= other;
    DependentsAreReachable(t.inputRows, {change.marker}, dependents, d);
  }

  /** An invalidation of a snapshot's own reference leaves nothing built on it current. */
  lemma NothingBuiltOnStaysCurrent(t: Tables, change: Change, reached: set<string>, marked: set<string>, identity: string, d: string)
    requires Sound(t) && IsInvalidatedSet(t, change, reached) && IsBuiltOn(t, d, change.marker)
    requires forall r :: r in marked <==> r in reached && IsCurrent(t, r)
    ensures d in reached && !IsCurrent(Mark(t, marked, Stale, identity), d)
  {
    BuiltOnDepends(t, d, change.marker);
    DependentIsInvalidated(t, change, reached, d);
    MarkedIsNotCurrent(t, marked, identity, d);
  }

  lemma {:induction false} ChainSurvives(before: Tables, after: Tables, d: string)
    requires Sound(before) && Sound(after) && KeepsHistory(before, after) && d in before.rows
    ensures d in after.rows && Chain(after, d) == Chain(before, d)
    decreases before.rows[d].rowid
  {
    assert KeptRow(before, after, d) && RowOk(before, d);
    if before.rows[d].base.Some? { ChainSurvives(before, after, before.rows[d].base.value); }
  }

  lemma {:induction false} RunKeepsHistory(t: Tables, events: seq<Event>)
    requires Sound(t)
    ensures Sound(Run(t, events)) && KeepsHistory(t, Run(t, events))
    decreases |events|
  {
    if events == [] {
      NoStepKeepsHistory(t);
    } else {
      var next := Step(t, events[0]);
      StepKeepsSound(t, events[0]);
      RunKeepsHistory(next, events[1..]);
      forall r | r in t.rows ensures KeptRow(t, Run(t, events), r) {
        assert KeptRow(t, next, r) && KeptRow(next, Run(t, events), r);
      }
    }
  }

  /** What is derived from a snapshot, or from something built on it, is built on it. */
  lemma DerivedIsBuiltOn(t: Tables, ref: string, delta: Fields, toScope: Option<string>, toScopeId: Option<string>, a: string)
    requires Sound(t) && End(t, ref) in t.rows && OrElse(toScope, RefScope(End(t, ref))) in SCOPES
    requires a == End(t, ref) || IsBuiltOn(t, End(t, ref), a)
    ensures var made := NewRef(t, OrElse(toScope, RefScope(End(t, ref))), OrElse(toScopeId, t.rows[End(t, ref)].scopeId));
      var after := Step(t, Derive(ref, delta, toScope, toScopeId));
      Sound(after) && IsBuiltOn(after, made, a)
  {
    StepKeepsSound(t, Derive(ref, delta, toScope, toScopeId));
    DeriveRecordsExactly(t, ref, delta, toScope, toScopeId, a);
    NewRefIsFresh(t, OrElse(toScope, RefScope(End(t, ref))), OrElse(toScopeId, t.rows[End(t, ref)].scopeId));
    OverBaseIsBuiltOn(t, Step(t, Derive(ref, delta, toScope, toScopeId)), End(t, ref),
                      NewRef(t, OrElse(toScope, RefScope(End(t, ref))), OrElse(toScopeId, t.rows[End(t, ref)].scopeId)), a);
  }

  /** So is a promotion. */
  lemma PromotedIsBuiltOn(t: Tables, ref: string, scope: string, toScopeId: Option<string>, a: string)
    requires Sound(t) && End(t, ref) in t.rows && scope in SCOPES
    requires a == End(t, ref) || IsBuiltOn(t, End(t, ref), a)
    ensures var made := NewRef(t, scope, OrElse(toScopeId, t.rows[End(t, ref)].scopeId));
      var after := Step(t, Promote(ref, scope, toScopeId));
      Sound(after) && IsBuiltOn(after, made, a)
  {
    StepKeepsSound(t, Promote(ref, scope, toScopeId));
    PromoteRecordsExactly(t, ref, scope, toScopeId, a);
    NewRefIsFresh(t, scope, OrElse(toScopeId, t.rows[End(t, ref)].scopeId));
    OverBaseIsBuiltOn(t, Step(t, Promote(ref, scope, toScopeId)), End(t, ref),
                      NewRef(t, scope, OrElse(toScopeId, t.rows[End(t, ref)].scopeId)), a);
  }

  lemma OverBaseIsBuiltOn(t: Tables, after: Tables, base: string, made: string, a: string)
    requires Sound(t) && Sound(after) && KeepsHistory(t, after) && base in t.rows
    requires made !in t.rows && made in after.rows && after.rows[made].base == Some(base)
    requires a == base || IsBuiltOn(t, base, a)
    ensures IsBuiltOn(after, made, a)
  {
    ChainSurvives(t, after, base);
    ChainEndsAtItself(t, base);
    ChainIsOlder(t, base);
  }

  /** What is built on a snapshot is so through every later run, and does not stay current when then the
      snapshot's reference is invalidated. */
  lemma BuiltOnGoesStale(t: Tables, d: string, a: string, events: seq<Event>, change: Change, reached: set<string>,
                         marked: set<string>, identity: string)
    requires Sound(t) && IsBuiltOn(t, d, a) && Sound(Run(t, events))
    requires change.marker == a && IsInvalidatedSet(Run(t, events), change, reached)
    requires forall r :: r in marked <==> r in reached && IsCurrent(Run(t, events), r)
    ensures !IsCurrent(Step(Run(t, events), InvalidateRefs(marked, identity)), d)
  {
    BuiltOnSurvives(t, d, a, events);
    var now := Run(t, events);
    NothingBuiltOnStaysCurrent(now, change, reached, marked, identity, d);
    InvalidatingMarks(now, marked, identity);
  }

  lemma BuiltOnSurvives(t: Tables, d: string, a: string, events: seq<Event>)
    requires Sound(t) && IsBuiltOn(t, d, a) && Sound(Run(t, events))
    ensures IsBuiltOn(Run(t, events), d, a)
  {
    RunKeepsHistory(t, events);
    ChainSurvives(t, Run(t, events), d);
  }

  lemma InvalidatingMarks(t: Tables, marked: set<string>, identity: string)
    requires Sound(t)
    ensures Step(t, InvalidateRefs(marked, identity)) == Mark(t, marked, Stale, identity)
  {
  }

  lemma ChainEndsAtItself(t: Tables, ref: string)
    requires Sound(t) && ref in t.rows
    ensures ref in Chain(t, ref)
  {
    var chain := Chain(t, ref);
    assert chain[|chain| - 1] == ref;
  }

  /* ------------------------------------------------------- what is invalidated, exactly */

  /** The row is current and names the marker or one of its revisions among its inputs or in its body, or
      has the scope of the change. */
  ghost predicate IsStruck(t: Tables, change: Change, r: string) {
    && IsCurrent(t, r)
    && ((exists i | i in t.rows[r].inputs :: i == change.marker || change.marker + "@" <= i)
        || Mentions(Obj(t.rows[r].body), change.marker)
        || change.scopeId == Some(t.rows[r].scopeId))
  }

  lemma StruckExactly(t: Tables, change: Change, r: string)
    requires IsCurrent(t, r)
    ensures DirectlyMatches(t.rows[r], change) <==> IsStruck(t, change, r)
  {
    ContainsExactExactly(Obj(t.rows[r].body), change.marker);
    forall i | i in t.rows[r].inputs ensures MatchesMarker(i, change.marker) <==> i == change.marker || change.marker + "@" <= i {
    }
  }

  /** From something the marker reaches or strikes, along inputs of current rows. */
  ghost predicate IsTrail(t: Tables, change: Change, trail: seq<string>) {
    && trail != []
    && ((trail[0] in t.inputRows && DependsOn(t.inputRows, {change.marker}, trail[0])) || IsStruck(t, change, trail[0]))
    && forall i | 1 <= i < |trail| :: IsCurrent(t, trail[i]) && trail[i - 1] in t.rows[trail[i]].inputs
  }

  ghost predicate IsReached(t: Tables, change: Change, r: string) {
    exists trail :: IsTrail(t, change, trail) && trail[|trail| - 1] == r
  }

  lemma {:induction false} TrailStaysInside(t: Tables, change: Change, dependents: set<string>, reached: set<string>, trail: seq<string>)
    requires AreDependents(t.inputRows, {change.marker}, dependents) && ClosedUnderChange(t, change, dependents, reached)
    requires IsTrail(t, change, trail)
    ensures trail[|trail| - 1] in reached
    decreases |trail|
  {
    var last := |trail| - 1;
    if last == 0 {
      if IsStruck(t, change, trail[0]) { StruckExactly(t, change, trail[0]); }
      else { DependentsAreReachable(t.inputRows, {change.marker}, dependents, trail[0]); }
    } else {
      TrailStaysInside(t, change, dependents, reached, trail[..last]);
      assert trail[last - 1] in t.rows[trail[last]].inputs * reached;
    }
  }

  lemma SeedIsReached(t: Tables, change: Change, r: string)
    requires (r in t.inputRows && DependsOn(t.inputRows, {change.marker}, r)) || IsStruck(t, change, r)
    ensures IsReached(t, change, r)
  {
    assert IsTrail(t, change, [r]) && [r][|[r]| - 1] == r;
  }

  lemma NextIsReached(t: Tables, change: Change, i: string, r: string)
    requires IsReached(t, change, i) && IsCurrent(t, r) && i in t.rows[r].inputs
    ensures IsReached(t, change, r)
  {
    var trail :| IsTrail(t, change, trail) && trail[|trail| - 1] == i;
    assert IsTrail(t, change, trail + [r]) && (trail + [r])[|trail|] == r;
  }

  lemma TrailsAreClosed(t: Tables, change: Change, dependents: set<string>, all: set<string>)
    requires AreDependents(t.inputRows, {change.marker}, dependents) && dependents <= t.inputRows.Keys
    requires forall r :: r in all <==> (r in t.rows || r in t.inputRows) && IsReached(t, change, r)
    ensures ClosedUnderChange(t, change, dependents, all)
  {
    forall r | r in dependents ensures r in all {
      DependentsAreReachable(t.inputRows, {change.marker}, dependents, r);
      SeedIsReached(t, change, r);
    }
    forall r | IsCurrent(t, r) && (DirectlyMatches(t.rows[r], change) || t.rows[r].inputs * all != {}) ensures r in all {
      if DirectlyMatches(t.rows[r], change) {
        StruckExactly(t, change, r);
        SeedIsReached(t, change, r);
      } else {
        var i :| i in t.rows[r].inputs * all;
        NextIsReached(t, change, i, r);
      }
    }
  }

  /** Exactly what a trail leads to is invalidated. */
  lemma InvalidatedExactly(t: Tables, change: Change, reached: set<string>, r: string)
    requires Sound(t) && IsInvalidatedSet(t, change, reached)
    ensures r in reached <==> r in t.rows && IsReached(t, change, r)
  {
    var dependents :| AreDependents(t.inputRows, {change.marker}, dependents) && ClosedUnderChange(t, change, dependents, reached)
      && forall other | ClosedUnderChange(t, change, dependents, other) :: reached <= other;
    DependentsAreRows(t.inputRows, {change.marker}, dependents);
    var all := set q | q in t.rows && IsReached(t, change, q);
    TrailsAreClosed(t, change, dependents, all);
    if r in t.rows && IsReached(t, change, r) {
      var trail :| IsTrail(t, change, trail) && trail[|trail| - 1] == r;
      TrailStaysInside(t, change, dependents, reached, trail);
    }
  }

  lemma DependentsAreRows(inputRows: map<string, set<string>>, roots: set<string>, found: set<string>)
    requires AreDependents(inputRows, roots, found)
    ensures found <= inputRows.Keys
  {
    var reached := set r | r in inputRows && DependsOn(inputRows, roots, r);
    DependentsAreClosed(inputRows, roots, reached);
  }
}
