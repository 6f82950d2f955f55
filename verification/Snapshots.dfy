/** The snapshot tables of the store: rows in insertion order, the recorded inputs, and
    the supersession table; and what a reference means over them. */
module Snapshots {
  import opened Common
  import opened Json
  import opened Content
  import opened SnapshotRefs

  datatype Validity = Current | Stale | Invalid

  /** What a row's digest is computed over.  Hashing is the identity here. */
  datatype Source = Source(
    scope: string, scopeId: string, base: Option<string>, delta: Fields,
    inputs: set<string>, supersedes: Option<string>)

  datatype Row = Row(
    rowid: nat, scopeType: string, scopeId: string, revision: nat, base: Option<string>,
    body: Fields, inputs: set<string>, digest: Source, validity: Validity, reason: Option<string>)

  datatype Tables = Tables(
    order: seq<string>,
    rows: map<string, Row>,
    inputRows: map<string, set<string>>,
    supersessions: map<string, string>)

  const EMPTY_TABLES := Tables([], map[], map[], map[])

  /* ---------------------------------------------------------- invariants */

  ghost predicate IsWellNamed(ref: string, row: Row) {
    && RefScope(ref) in SCOPES
    && row.scopeType == StorageScope(RefScope(ref))
    && ref == MakeRef(RefScope(ref), row.scopeId, row.revision)
  }

  /** The inputs the input table gets: an empty reference among them refuses them all. */
  function Recorded(inputs: set<string>): set<string> {
    if "" in inputs then {} else inputs
  }

  /** A row sits at its insertion place, over an older base it records as an input, under its own name. */
  ghost predicate RowOk(t: Tables, ref: string)
    requires ref in t.rows
  {
    var row := t.rows[ref];
    && row.rowid < |t.order| && t.order[row.rowid] == ref
    && (row.base.Some? ==> row.base.value in t.rows && t.rows[row.base.value].rowid < row.rowid)
    && IsWellNamed(ref, row)
    && Clean(row.body)
    && ref in t.inputRows && t.inputRows[ref] == Recorded(row.inputs)
    && (row.base.Some? ==> row.base.value in row.inputs && row.base.value in t.inputRows[ref])
  }

  /** A superseded snapshot points to a strictly newer one. */
  ghost predicate EdgeOk(t: Tables, ref: string)
    requires ref in t.supersessions
  {
    && ref in t.rows && t.supersessions[ref] in t.rows
    && t.rows[ref].rowid < t.rows[t.supersessions[ref]].rowid
  }

  /** The first `n` rows in insertion order exist. */
  predicate HasRows(t: Tables, n: nat) {
    n <= |t.order| && forall i | 0 <= i < n :: t.order[i] in t.rows
  }

  ghost predicate PlaceOk(t: Tables, i: nat)
    requires i < |t.order|
  {
    t.order[i] in t.rows && t.rows[t.order[i]].rowid == i
  }

  ghost predicate PlacesOk(t: Tables) {
    forall i {:trigger PlaceOk(t, i)} | 0 <= i < |t.order| :: PlaceOk(t, i)
  }

  ghost predicate RowsOk(t: Tables) {
    forall r {:trigger RowOk(t, r)} | r in t.rows :: RowOk(t, r)
  }

  ghost predicate EdgesOk(t: Tables) {
    forall r {:trigger EdgeOk(t, r)} | r in t.supersessions :: EdgeOk(t, r)
  }

  ghost predicate Sound(t: Tables) {
    HasRows(t, |t.order|) && PlacesOk(t) && RowsOk(t) && EdgesOk(t) && t.inputRows.Keys == t.rows.Keys
  }

  /* ------------------------------------------------- meaning of a reference */

  /** Follow the supersession table to its end. */
  ghost function Resolve(t: Tables, ref: string): string
    requires Sound(t)
    decreases if ref in t.rows then |t.order| - t.rows[ref].rowid else 0
  {
    if ref in t.supersessions then
      assert EdgeOk(t, ref) && RowOk(t, ref) && RowOk(t, t.supersessions[ref]);
      Resolve(t, t.supersessions[ref])
    else ref
  }

  /** The base chain of a snapshot, root first. */
  ghost function Chain(t: Tables, ref: string): seq<string>
    requires Sound(t) && ref in t.rows
    decreases t.rows[ref].rowid
  {
    assert RowOk(t, ref);
    (if t.rows[ref].base.Some? then Chain(t, t.rows[ref].base.value) else []) + [ref]
  }

  /** Left fold of the merge from the empty content. */
  function Replay(bodies: seq<Fields>): Fields {
    if bodies == [] then map[] else Merge(Replay(bodies[..|bodies| - 1]), bodies[|bodies| - 1])
  }

  function Bodies(t: Tables, refs: seq<string>): seq<Fields>
    requires forall r | r in refs :: r in t.rows
  {
    seq(|refs|, i requires 0 <= i < |refs| => t.rows[refs[i]].body)
  }

  ghost function Fold(t: Tables, ref: string): Fields
    requires Sound(t) && ref in t.rows
    decreases t.rows[ref].rowid
  {
    assert RowOk(t, ref);
    var below := if t.rows[ref].base.Some? then Fold(t, t.rows[ref].base.value) else map[];
    Merge(below, t.rows[ref].body)
  }

  /** What a reader of the reference sees; None when no snapshot stands behind it. */
  ghost function ContentOf(t: Tables, ref: string): Option<Fields>
    requires Sound(t)
  {
    var end := Resolve(t, RefValue(ref));
    if end in t.rows then Some(Fold(t, end)) else None
  }

  lemma {:induction false} ChainIsOlder(t: Tables, ref: string)
    requires Sound(t) && ref in t.rows
    ensures forall r | r in Chain(t, ref) :: r in t.rows && t.rows[r].rowid <= t.rows[ref].rowid
    decreases t.rows[ref].rowid
  {
    assert RowOk(t, ref);
    if t.rows[ref].base.Some? { ChainIsOlder(t, t.rows[ref].base.value); }
  }

  lemma ReplayOneMore(bodies: seq<Fields>, body: Fields)
    ensures Replay(bodies + [body]) == Merge(Replay(bodies), body)
  {
    assert (bodies + [body])[..|bodies|] == bodies;
  }

  lemma BodiesOneMore(t: Tables, refs: seq<string>, ref: string)
    requires forall r | r in refs + [ref] :: r in t.rows
    ensures (forall r | r in refs :: r in t.rows) && Bodies(t, refs + [ref]) == Bodies(t, refs) + [t.rows[ref].body]
  {
    assert forall r | r in refs :: r in refs + [ref];
  }

  lemma {:induction false} FoldIsReplayOfChain(t: Tables, ref: string)
    requires Sound(t) && ref in t.rows
    ensures forall r | r in Chain(t, ref) :: r in t.rows && t.rows[r].rowid <= t.rows[ref].rowid
    ensures Fold(t, ref) == Replay(Bodies(t, Chain(t, ref)))
    decreases t.rows[ref].rowid
  {
    assert RowOk(t, ref);
    ChainIsOlder(t, ref);
    var base := t.rows[ref].base;
    var before := if base.Some? then Chain(t, base.value) else [];
    if base.Some? { FoldIsReplayOfChain(t, base.value); }
    assert Chain(t, ref) == before + [ref];
    BodiesOneMore(t, before, ref);
    ReplayOneMore(Bodies(t, before), t.rows[ref].body);
  }

  lemma {:induction false} FoldIsClean(t: Tables, ref: string)
    requires Sound(t) && ref in t.rows
    ensures Clean(Fold(t, ref))
    decreases t.rows[ref].rowid
  {
    assert RowOk(t, ref);
    var row := t.rows[ref];
    if row.base.Some? { FoldIsClean(t, row.base.value); }
    MergeKeepsClean(if row.base.Some? then Fold(t, row.base.value) else map[], row.body);
  }

  /** Resolution ends at a reference nothing supersedes, never moves to an older row,
      and is idempotent. */
  lemma {:induction false} ResolveEnds(t: Tables, ref: string)
    requires Sound(t)
    ensures var end := Resolve(t, ref);
      && end !in t.supersessions
      && Resolve(t, end) == end
      && (ref in t.rows <==> end in t.rows)
      && (ref in t.rows ==> t.rows[ref].rowid <= t.rows[end].rowid)
      && (ref in t.rows && end != ref ==> t.rows[ref].rowid < t.rows[end].rowid)
    decreases if ref in t.rows then |t.order| - t.rows[ref].rowid else 0
  {
    if ref in t.supersessions {
      assert EdgeOk(t, ref) && RowOk(t, ref) && RowOk(t, t.supersessions[ref]);
      ResolveEnds(t, t.supersessions[ref]);
    }
  }

  /* --------------------------------------------------------------- changes */

  function MaxRevision(t: Tables, scopeType: string, scopeId: string, n: nat): nat
    requires HasRows(t, n)
  {
    if n == 0 then 0
    else
      var row := t.rows[t.order[n - 1]];
      var below := MaxRevision(t, scopeType, scopeId, n - 1);
      if row.scopeType == scopeType && row.scopeId == scopeId && row.revision > below then row.revision else below
  }

  function NewRef(t: Tables, scope: string, scopeId: string): string
    requires HasRows(t, |t.order|)
  {
    MakeRef(scope, scopeId, MaxRevision(t, StorageScope(scope), scopeId, |t.order|) + 1)
  }

  function CausalInputs(extra: set<string>, delta: Fields, base: Option<string>): set<string> {
    (set i | i in extra :: RefValue(i)) + InputRefs(Obj(delta)) + if base.Some? then {base.value} else {}
  }

  /** The effect of one snapshot write on all three tables.  The row is inserted before its inputs are
      looked at, so it stays when they are refused; the supersession comes last. */
  function Append(t: Tables, scope: string, scopeId: string, delta: Fields, base: Option<string>,
                  extra: set<string>, supersedes: Option<string>, reason: Option<string>): Tables
    requires HasRows(t, |t.order|)
  {
    var ref := NewRef(t, scope, scopeId);
    var revision := MaxRevision(t, StorageScope(scope), scopeId, |t.order|) + 1;
    var inputs := CausalInputs(extra, delta, base);
    var row := Row(|t.order|, StorageScope(scope), scopeId, revision, base, delta, inputs,
                   Source(scope, scopeId, base, delta, inputs, supersedes), Current, reason);
    Tables(t.order + [ref], t.rows[ref := row], t.inputRows[ref := Recorded(inputs)],
           if supersedes.Some? && "" !in inputs then t.supersessions[supersedes.value := ref] else t.supersessions)
  }

  function MarkRow(row: Row, chosen: bool, validity: Validity, reason: string): Row {
    if chosen then row.(validity := validity, reason := Some(reason)) else row
  }

  function Mark(t: Tables, refs: set<string>, validity: Validity, reason: string): Tables {
    t.(rows := map r | r in t.rows :: MarkRow(t.rows[r], r in refs, validity, reason))
  }

  /** The row of `before` is still there with the same place, base, body and inputs. */
  ghost predicate KeptRow(before: Tables, after: Tables, ref: string)
    requires ref in before.rows
  {
    && ref in after.rows
    && after.rows[ref].rowid == before.rows[ref].rowid
    && after.rows[ref].base == before.rows[ref].base
    && after.rows[ref].body == before.rows[ref].body
    && after.rows[ref].inputs == before.rows[ref].inputs
  }

  ghost predicate KeepsHistory(before: Tables, after: Tables) {
    forall r {:trigger KeptRow(before, after, r)} | r in before.rows :: KeptRow(before, after, r)
  }

  lemma {:induction false} MaxRevisionBounds(t: Tables, scopeType: string, scopeId: string, n: nat, i: nat)
    requires HasRows(t, n)
    requires i < n
    requires var row := t.rows[t.order[i]]; row.scopeType == scopeType && row.scopeId == scopeId
    ensures t.rows[t.order[i]].revision <= MaxRevision(t, scopeType, scopeId, n)
  {
    if i < n - 1 { MaxRevisionBounds(t, scopeType, scopeId, n - 1, i); }
  }

  /** The next revision of a scope names no row yet, whatever scope the row was made under. */
  lemma NewRefIsFresh(t: Tables, scope: string, scopeId: string)
    requires Sound(t) && scope in SCOPES
    ensures NewRef(t, scope, scopeId) !in t.rows
  {
    var ref := NewRef(t, scope, scopeId);
    if ref in t.rows {
      assert RowOk(t, ref);
      var row := t.rows[ref];
      var last := MaxRevision(t, StorageScope(scope), scopeId, |t.order|);
      MadeRefsAreDistinct(RefScope(ref), row.scopeId, row.revision, scope, scopeId, last + 1);
      MaxRevisionBounds(t, StorageScope(scope), scopeId, |t.order|, row.rowid);
      assert false;
    }
  }

  /** No input of a write over a base is empty: the base has a made reference. */
  lemma InputsOverBaseAreNamed(t: Tables, extra: set<string>, delta: Fields, base: string)
    requires Sound(t) && base in t.rows && "" !in extra
    ensures "" !in CausalInputs(extra, delta, Some(base))
  {
    InputRefsAreNamed(Obj(delta));
    assert RowOk(t, base);
  }

  lemma AppendedRowIsOk(t: Tables, scope: string, scopeId: string, delta: Fields, base: Option<string>,
                        extra: set<string>, supersedes: Option<string>, reason: Option<string>)
    requires Sound(t) && scope in SCOPES && Clean(delta)
    requires base.Some? ==> base.value in t.rows && "" !in extra
    requires NewRef(t, scope, scopeId) !in t.rows
    ensures var after := Append(t, scope, scopeId, delta, base, extra, supersedes, reason);
      RowOk(after, NewRef(t, scope, scopeId))
  {
    MadeRefNamesItsScope(scope, scopeId, MaxRevision(t, StorageScope(scope), scopeId, |t.order|) + 1);
    if base.Some? {
      assert RowOk(t, base.value);
      InputsOverBaseAreNamed(t, extra, delta, base.value);
    }
  }

  /** `after` has one more row, `ref`, at the end. */
  ghost predicate AddsRow(t: Tables, after: Tables, ref: string, row: Row) {
    && ref !in t.rows && row.rowid == |t.order|
    && after.order == t.order + [ref]
    && after.rows == t.rows[ref := row]
    && after.inputRows == t.inputRows[ref := Recorded(row.inputs)]
  }

  lemma AddedRowKeepsRows(t: Tables, after: Tables, ref: string, row: Row)
    requires Sound(t) && AddsRow(t, after, ref, row) && RowOk(after, ref)
    ensures RowsOk(after) && KeepsHistory(t, after)
  {
    forall r | r in t.rows ensures KeptRow(t, after, r) && RowOk(after, r) {
      assert RowOk(t, r);
    }
  }

  lemma AddedRowKeepsPlaces(t: Tables, after: Tables, ref: string, row: Row)
    requires Sound(t) && AddsRow(t, after, ref, row)
    ensures HasRows(after, |after.order|) && PlacesOk(after)
  {
    forall i | 0 <= i < |after.order| ensures PlaceOk(after, i) {
      if i < |t.order| { assert PlaceOk(t, i); }
    }
  }

  lemma AddedRowKeepsEdges(t: Tables, after: Tables, ref: string, row: Row, supersedes: Option<string>)
    requires Sound(t) && AddsRow(t, after, ref, row)
    requires supersedes.Some? ==> supersedes.value in t.rows
    requires after.supersessions == t.supersessions
      || (supersedes.Some? && after.supersessions == t.supersessions[supersedes.value := ref])
    ensures EdgesOk(after)
  {
    forall r | r in after.supersessions ensures EdgeOk(after, r) {
      if r in t.supersessions && after.supersessions[r] == t.supersessions[r] {
        assert EdgeOk(t, r);
      } else {
        assert RowOk(t, r);
      }
    }
  }

  /** A snapshot write keeps the tables sound and every older row as it was. */
  lemma AppendKeepsSound(t: Tables, scope: string, scopeId: string, delta: Fields, base: Option<string>,
                         extra: set<string>, supersedes: Option<string>, reason: Option<string>)
    requires Sound(t) && scope in SCOPES && Clean(delta)
    requires base.Some? ==> base.value in t.rows && "" !in extra
    requires supersedes.Some? ==> supersedes.value in t.rows
    ensures var after := Append(t, scope, scopeId, delta, base, extra, supersedes, reason);
      Sound(after) && KeepsHistory(t, after) && NewRef(t, scope, scopeId) !in t.rows
  {
    NewRefIsFresh(t, scope, scopeId);
    var ref := NewRef(t, scope, scopeId);
    var after := Append(t, scope, scopeId, delta, base, extra, supersedes, reason);
    AppendedRowIsOk(t, scope, scopeId, delta, base, extra, supersedes, reason);
    AddedRowKeepsRows(t, after, ref, after.rows[ref]);
    AddedRowKeepsPlaces(t, after, ref, after.rows[ref]);
    AddedRowKeepsEdges(t, after, ref, after.rows[ref], supersedes);
  }

  lemma MarkKeepsSound(t: Tables, refs: set<string>, validity: Validity, reason: string)
    requires Sound(t)
    ensures var after := Mark(t, refs, validity, reason);
      Sound(after) && KeepsHistory(t, after)
  {
    var after := Mark(t, refs, validity, reason);
    assert after.rows.Keys == t.rows.Keys;
    MarkKeepsRows(t, refs, validity, reason);
    assert PlacesOk(after) by {
      forall i | 0 <= i < |after.order| ensures PlaceOk(after, i) { assert PlaceOk(t, i); }
    }
    assert EdgesOk(after) by {
      forall r | r in after.supersessions ensures EdgeOk(after, r) { assert EdgeOk(t, r); }
    }
  }

  lemma MarkKeepsRows(t: Tables, refs: set<string>, validity: Validity, reason: string)
    requires Sound(t)
    ensures var after := Mark(t, refs, validity, reason);
      RowsOk(after) && KeepsHistory(t, after)
  {
    var after := Mark(t, refs, validity, reason);
    forall r | r in t.rows ensures KeptRow(t, after, r) && RowOk(after, r) { assert RowOk(t, r); }
  }

  /** Rows never change what they contribute, so neither does any fold over them. */
  lemma {:induction false} FoldIsStable(before: Tables, after: Tables, ref: string)
    requires Sound(before) && Sound(after) && KeepsHistory(before, after)
    requires ref in before.rows
    ensures ref in after.rows && Fold(after, ref) == Fold(before, ref)
    decreases before.rows[ref].rowid
  {
    assert KeptRow(before, after, ref) && RowOk(before, ref);
    var base := before.rows[ref].base;
    if base.Some? { FoldIsStable(before, after, base.value); }
  }

  lemma {:induction false} ResolveIsStable(before: Tables, after: Tables, ref: string)
    requires Sound(before) && Sound(after) && after.supersessions == before.supersessions
    ensures Resolve(after, ref) == Resolve(before, ref)
    decreases if ref in before.rows then |before.order| - before.rows[ref].rowid else 0
  {
    if ref in before.supersessions {
      var next := before.supersessions[ref];
      assert EdgeOk(before, ref) && RowOk(before, ref) && RowOk(before, next);
      ResolveIsStable(before, after, next);
    }
  }

  lemma SupersededIsARow(t: Tables, ref: string)
    requires Sound(t)
    ensures ref in t.supersessions ==> ref in t.rows
  {
    if ref in t.supersessions { assert EdgeOk(t, ref); }
  }

  /** Superseding an end reference redirects exactly the references that ended there. */
  lemma {:induction false} ResolveAfterSuperseding(before: Tables, after: Tables, replaced: string, replacement: string, ref: string)
    requires Sound(before) && Sound(after)
    requires replaced !in before.supersessions && replacement !in before.rows
    requires after.supersessions == before.supersessions[replaced := replacement]
    requires ref != replacement
    ensures Resolve(after, ref) == if Resolve(before, ref) == replaced then replacement else Resolve(before, ref)
    decreases if ref in before.rows then |before.order| - before.rows[ref].rowid else 0
  {
    if ref in before.supersessions {
      var next := before.supersessions[ref];
      assert EdgeOk(before, ref) && RowOk(before, ref) && RowOk(before, next);
      ResolveAfterSuperseding(before, after, replaced, replacement, next);
    } else if ref == replaced {
      SupersededIsARow(before, replacement);
      assert Resolve(after, replacement) == replacement;
    }
  }
}
