/** Reading a work graph back from records that may come in any order. */
module WorkGraphRecords {
  import opened Common
  import opened Graphs
  import opened WorkGraphs

  /* ------------------------------------------------ which records make a graph */

  function RecordIds(records: seq<Unit>): set<string> {
    set r | r in records :: r.id
  }

  function ParentEdges(records: seq<Unit>): Edges {
    map id | id in RecordIds(records) :: set r | r in records && r.id == id && r.parent.Some? :: r.parent.value
  }

  ghost predicate DistinctIds(records: seq<Unit>) {
    forall i, j | 0 <= i < j < |records| :: records[i].id != records[j].id
  }

  ghost predicate ParentsClosed(records: seq<Unit>) {
    forall r | r in records && r.parent.Some? :: r.parent.value in RecordIds(records)
  }

  ghost predicate EdgesNarrow(contains: Containment, records: seq<Unit>) {
    forall q, r | q in records && r in records && r.parent == Some(q.id) :: Narrows(contains, q, r)
  }

  ghost predicate Acceptable(contains: Containment, records: seq<Unit>) {
    && (forall r | r in records :: HasLists(r))
    && DistinctIds(records)
    && ParentsClosed(records)
    && Acyclic(ParentEdges(records))
    && EdgesNarrow(contains, records)
  }

  lemma RepeatedCountsTwice(s: seq<Unit>, i: nat, j: nat)
    requires i < j < |s| && s[i] == s[j]
    ensures multiset(s)[s[i]] >= 2
  {
    assert s == s[..j] + s[j..];
    assert s[i] in s[..j] && s[j] in s[j..];
  }

  lemma {:induction false} CountedTwiceIsRepeated(s: seq<Unit>, x: Unit)
    requires multiset(s)[x] >= 2
    ensures exists i, j :: 0 <= i < j < |s| && s[i] == s[j] == x
  {
    var n := |s| - 1;
    assert s == s[..n] + [s[n]];
    if s[n] == x {
      assert x in s[..n];
      var i :| 0 <= i < n && s[..n][i] == x;
      assert s[i] == s[n] == x;
    } else {
      CountedTwiceIsRepeated(s[..n], x);
      var i, j :| 0 <= i < j < n && s[..n][i] == s[..n][j] == x;
      assert s[i] == s[j] == x;
    }
  }

  lemma DistinctInAnyOrder(a: seq<Unit>, b: seq<Unit>)
    requires multiset(a) == multiset(b) && DistinctIds(a)
    ensures DistinctIds(b)
  {
    forall i, j | 0 <= i < j < |b| ensures b[i].id != b[j].id {
      if b[i] == b[j] {
        RepeatedCountsTwice(b, i, j);
        CountedTwiceIsRepeated(a, b[i]);
        assert false;
      }
      assert b[i] in multiset(a) && b[j] in multiset(a);
      var p, q :| 0 <= p < |a| && 0 <= q < |a| && a[p] == b[i] && a[q] == b[j];
    }
  }

  lemma SameEdges(a: seq<Unit>, b: seq<Unit>)
    requires forall r :: r in a <==> r in b
    ensures RecordIds(a) == RecordIds(b) && ParentEdges(a) == ParentEdges(b)
  {
    forall id | id in RecordIds(a) ensures ParentEdges(a)[id] == ParentEdges(b)[id] {
      assert forall p :: p in ParentEdges(a)[id] <==> p in ParentEdges(b)[id];
    }
  }

  /** Whether records make a graph, and of which units, does not depend on their order. */
  lemma OrderDoesNotMatter(contains: Containment, a: seq<Unit>, b: seq<Unit>)
    requires multiset(a) == multiset(b)
    ensures Acceptable(contains, a) <==> Acceptable(contains, b)
    ensures RecordIds(a) == RecordIds(b)
  {
    assert forall r :: r in a <==> r in multiset(a);
    assert forall r :: r in b <==> r in multiset(b);
    assert forall r :: r in a <==> r in b;
    SameEdges(a, b);
    if DistinctIds(a) { DistinctInAnyOrder(a, b); }
    if DistinctIds(b) { DistinctInAnyOrder(b, a); }
  }

  /** Every parent comes before its children. */
  ghost predicate ParentsFirst(records: seq<Unit>) {
    forall i | 0 <= i < |records| && records[i].parent.Some? :: exists j | 0 <= j < i :: records[j].id == records[i].parent.value
  }

  function UpTo(n: nat): seq<nat> {
    seq(n, i => i)
  }

  lemma UpToCovers(n: nat)
    ensures forall i | 0 <= i < n :: i in UpTo(n)
  {
    forall i | 0 <= i < n ensures i in UpTo(n) { assert UpTo(n)[i] == i; }
  }

  /* ------------------------------------------------------------ the bookkeeping */

  /** The graph holds the records at the positions `placed`, in that order. */
  ghost predicate Holds(records: seq<Unit>, g: Graph, placed: seq<nat>) {
    && |g.order| == |placed|
    && (forall k | 0 <= k < |placed| :: placed[k] < |records| && g.order[k] == records[placed[k]].id)
    && (forall k | 0 <= k < |placed| :: g.order[k] in g.units && g.units[g.order[k]] == records[placed[k]])
  }

  /** Every position is either placed or left, and no position is both. */
  ghost predicate Splits(records: seq<Unit>, placed: seq<nat>, left: seq<nat>) {
    && (forall k | 0 <= k < |left| :: left[k] < |records| && left[k] !in placed)
    && (forall j, k | 0 <= j < k < |left| :: left[j] != left[k])
    && (forall i | 0 <= i < |records| :: i in placed || i in left)
  }

  ghost predicate Spells(records: seq<Unit>, part: seq<Unit>, at: seq<nat>) {
    |part| == |at| && forall k | 0 <= k < |at| :: at[k] < |records| && part[k] == records[at[k]]
  }

  ghost predicate IsWaiting(records: seq<Unit>, g: Graph, left: seq<nat>) {
    forall k | 0 <= k < |left| ::
      left[k] < |records| && records[left[k]].parent.Some? && records[left[k]].parent.value !in g.units
  }

  lemma RepeatedIsUnacceptable(contains: Containment, records: seq<Unit>, g: Graph, placed: seq<nat>, i: nat)
    requires WellFormed(contains, g) && Holds(records, g, placed) && i < |records| && i !in placed
    requires records[i].id in g.units
    ensures !DistinctIds(records)
  {
    assert records[i].id in g.order;
    var k :| 0 <= k < |g.order| && g.order[k] == records[i].id;
    assert placed[k] in placed;
    assert placed[k] < i || i < placed[k];
  }

  lemma WideningIsUnacceptable(contains: Containment, records: seq<Unit>, g: Graph, placed: seq<nat>, i: nat)
    requires WellFormed(contains, g) && Holds(records, g, placed) && i < |records|
    requires records[i].parent.Some? && records[i].parent.value in g.units
    requires !Narrows(contains, g.units[records[i].parent.value], records[i])
    ensures !EdgesNarrow(contains, records)
  {
    assert records[i].parent.value in g.order;
    var k :| 0 <= k < |g.order| && g.order[k] == records[i].parent.value;
    assert records[placed[k]] in records && records[i] in records;
  }

  lemma EveryRecordIsSomewhere(records: seq<Unit>, g: Graph, placed: seq<nat>, left: seq<nat>, j: nat)
    requires Holds(records, g, placed) && Splits(records, placed, left) && j < |records|
    ensures records[j].id in g.units || records[j].id in set k | 0 <= k < |left| :: records[left[k]].id
  {
    if j in placed {
      var m :| 0 <= m < |placed| && placed[m] == j;
      assert g.order[m] == records[j].id;
    } else {
      var m :| 0 <= m < |left| && left[m] == j;
    }
  }

  /** When a pass places nothing, a parent is missing or the parent relation has a cycle. */
  lemma StuckIsUnacceptable(contains: Containment, records: seq<Unit>, g: Graph, placed: seq<nat>, left: seq<nat>)
    requires WellFormed(contains, g) && Holds(records, g, placed) && Splits(records, placed, left) && left != []
    requires IsWaiting(records, g, left)
    ensures !(ParentsClosed(records) && Acyclic(ParentEdges(records)))
  {
    if ParentsClosed(records) && Acyclic(ParentEdges(records)) {
      var waiting := set k | 0 <= k < |left| :: records[left[k]].id;
      assert records[left[0]].id in waiting;
      forall k | 0 <= k < |left| ensures records[left[k]].id in RecordIds(records) {
        assert records[left[k]] in records;
      }
      var id := MinimalNode(ParentEdges(records), waiting);
      var k :| 0 <= k < |left| && records[left[k]].id == id;
      var parent := records[left[k]].parent.value;
      assert records[left[k]] in records;
      assert parent in ParentEdges(records)[id];
      var j :| 0 <= j < |records| && records[j].id == parent;
      EveryRecordIsSomewhere(records, g, placed, left, j);
      assert false;
    }
  }

  lemma PlacedAllIsDistinct(contains: Containment, records: seq<Unit>, g: Graph, placed: seq<nat>)
    requires WellFormed(contains, g) && Holds(records, g, placed) && Splits(records, placed, [])
    ensures DistinctIds(records)
  {
    forall i, j | 0 <= i < j < |records| ensures records[i].id != records[j].id {
      assert i in placed && j in placed;
      var k :| 0 <= k < |placed| && placed[k] == i;
      var l :| 0 <= l < |placed| && placed[l] == j;
      assert g.order[k] == records[i].id && g.order[l] == records[j].id;
    }
  }

  lemma PlacedAllIsTable(contains: Containment, records: seq<Unit>, g: Graph, placed: seq<nat>)
    requires WellFormed(contains, g) && Holds(records, g, placed) && Splits(records, placed, [])
    ensures Members(g.order) == g.units.Keys == RecordIds(records)
    ensures forall r | r in records :: r.id in g.units && g.units[r.id] == r
  {
    forall r | r in records ensures r.id in g.units && g.units[r.id] == r {
      var i :| 0 <= i < |records| && records[i] == r;
      assert i in placed;
      var k :| 0 <= k < |placed| && placed[k] == i;
    }
    forall id | id in g.units ensures id in RecordIds(records) {
      assert id in g.order;
      var k :| 0 <= k < |g.order| && g.order[k] == id;
      assert records[placed[k]] in records;
    }
  }

  lemma PlacedAllIsAcceptable(contains: Containment, records: seq<Unit>, g: Graph, placed: seq<nat>)
    requires WellFormed(contains, g) && Holds(records, g, placed) && Splits(records, placed, [])
    ensures Acceptable(contains, records)
  {
    PlacedAllIsDistinct(contains, records, g, placed);
    PlacedAllIsTable(contains, records, g, placed);
    forall r | r in records ensures HasLists(r) {
      assert r.id in g.order;
      var k :| 0 <= k < |g.order| && g.order[k] == r.id;
      assert UnitOk(contains, g, k);
    }
    forall r | r in records && r.parent.Some? ensures r.parent.value in RecordIds(records) {
      EdgeNarrows(contains, g, r.id);
    }
    forall q, r | q in records && r in records && r.parent == Some(q.id) ensures Narrows(contains, q, r) {
      EdgeNarrows(contains, g, r.id);
    }
    forall k | 0 <= k < |g.order|
      ensures g.order[k] in ParentEdges(records) && ParentEdges(records)[g.order[k]] <= Members(g.order[..k])
    {
      assert UnitOk(contains, g, k);
      assert g.order[k] in Members(g.order);
      forall p | p in ParentEdges(records)[g.order[k]] ensures p in g.order[..k] {
        var r :| r in records && r.id == g.order[k] && r.parent == Some(p);
        assert g.units[r.id] == r;
      }
    }
    SortedIsAcyclic(ParentEdges(records), g.order);
  }

  lemma HoldsAfterCommit(records: seq<Unit>, g: Graph, placed: seq<nat>, i: nat)
    requires Holds(records, g, placed) && i < |records| && records[i].id !in g.units
    ensures Holds(records, Committed(g, records[i]), placed + [i])
  {
  }

  /** Taking the head of the second part out of two parts. */
  lemma WithoutHead(rest: seq<nat>, later: seq<nat>)
    requires later != []
    ensures (rest + later)[|rest|] == later[0]
    ensures forall k | 0 <= k < |rest + later[1..]| ::
      (rest + later[1..])[k] == (rest + later)[if k < |rest| then k else k + 1]
    ensures forall i | i in rest + later && i != later[0] :: i in rest + later[1..]
  {
    assert later == [later[0]] + later[1..];
  }

  lemma SplitsAfterPlacing(records: seq<Unit>, placed: seq<nat>, rest: seq<nat>, later: seq<nat>)
    requires later != [] && Splits(records, placed, rest + later)
    ensures Splits(records, placed + [later[0]], rest + later[1..])
  {
    var all, after := rest + later, rest + later[1..];
    var at := |rest|;
    WithoutHead(rest, later);
    forall k | 0 <= k < |after| ensures after[k] < |records| && after[k] !in placed + [later[0]] {
      assert all[if k < at then k else k + 1] != all[at];
    }
    forall j, k | 0 <= j < k < |after| ensures after[j] != after[k] {
      assert all[if j < at then j else j + 1] != all[if k < at then k else k + 1];
    }
  }

  lemma SplitsAfterSkipping(records: seq<Unit>, placed: seq<nat>, rest: seq<nat>, later: seq<nat>)
    requires later != [] && Splits(records, placed, rest + later)
    ensures Splits(records, placed, (rest + [later[0]]) + later[1..])
  {
    assert (rest + [later[0]]) + later[1..] == rest + later;
  }

  /* ------------------------------------------------------------------- the loop */

  /** Place one record, or skip it while its parent is not there. */
  method PlaceOne(graph: WorkGraph, ghost records: seq<Unit>, record: Unit, ghost i: nat, ghost placed: seq<nat>)
    returns (skipped: bool, error: Option<GraphError>)
    requires graph.Valid() && Holds(records, graph.View(), placed)
    requires i < |records| && records[i] == record && i !in placed
    modifies graph
    ensures graph.Valid()
    ensures skipped <==> record.parent.Some? && record.parent.value !in old(graph.units)
    ensures skipped ==> error.None? && graph.View() == old(graph.View())
    ensures error.Some? ==> !Acceptable(graph.contains, records)
    ensures !skipped && error.None? ==> Holds(records, graph.View(), placed + [i])
  {
    if record.parent.Some? && record.parent.value !in graph.units {
      return true, None;
    }
    if !HasLists(record) {
      assert record in records;
    } else if record.id in graph.units {
      RepeatedIsUnacceptable(graph.contains, records, graph.View(), placed, i);
    } else if record.parent.Some? && !Narrows(graph.contains, graph.units[record.parent.value], record) {
      WideningIsUnacceptable(graph.contains, records, graph.View(), placed, i);
    } else {
      HoldsAfterCommit(records, graph.View(), placed, i);
    }
    error := graph.Add(record);
    return false, error;
  }

  /** The middle of a pass: `rest` was skipped, the positions `later` are still to come. */
  ghost predicate Midway(records: seq<Unit>, g: Graph, placed: seq<nat>, rest: seq<Unit>, left: seq<nat>, later: seq<nat>) {
    Holds(records, g, placed) && Splits(records, placed, left + later) && Spells(records, rest, left)
  }

  lemma MidwayEnds(records: seq<Unit>, g: Graph, placed: seq<nat>, rest: seq<Unit>, left: seq<nat>)
    requires Midway(records, g, placed, rest, left, [])
    ensures Splits(records, placed, left) && Midway(records, g, placed, [], [], left)
  {
    assert left + [] == left && [] + left == left;
  }

  lemma MidwayStarts(records: seq<Unit>, g: Graph)
    requires g.order == []
    ensures Midway(records, g, [], [], [], UpTo(|records|))
  {
    UpToCovers(|records|);
    assert [] + UpTo(|records|) == UpTo(|records|);
  }

  lemma MidwayHead(records: seq<Unit>, g: Graph, placed: seq<nat>, rest: seq<Unit>, left: seq<nat>, later: seq<nat>)
    requires Midway(records, g, placed, rest, left, later) && later != []
    ensures later[0] < |records| && later[0] !in placed
  {
    assert (left + later)[|left|] == later[0];
  }

  lemma MidwaySkip(records: seq<Unit>, g: Graph, placed: seq<nat>, rest: seq<Unit>, left: seq<nat>, later: seq<nat>)
    requires Midway(records, g, placed, rest, left, later) && later != []
    ensures later[0] < |records|
    ensures Midway(records, g, placed, rest + [records[later[0]]], left + [later[0]], later[1..])
  {
    MidwayHead(records, g, placed, rest, left, later);
    SplitsAfterSkipping(records, placed, left, later);
  }

  lemma MidwayPlace(records: seq<Unit>, g: Graph, g': Graph, placed: seq<nat>, rest: seq<Unit>, left: seq<nat>, later: seq<nat>)
    requires Midway(records, g, placed, rest, left, later) && later != []
    requires Holds(records, g', placed + [later[0]])
    ensures Midway(records, g', placed + [later[0]], rest, left, later[1..])
  {
    SplitsAfterPlacing(records, placed, left, later);
  }

  lemma ParentIsNext(records: seq<Unit>, g: Graph, placed: seq<nat>, rest: seq<Unit>, left: seq<nat>, later: seq<nat>, n: nat)
    requires Midway(records, g, placed, rest, left, later) && later != [] && later[0] == n
    requires ParentsFirst(records) && placed == UpTo(n)
    ensures n < |records|
    ensures records[n].parent.Some? ==> records[n].parent.value in g.units
  {
    MidwayHead(records, g, placed, rest, left, later);
    ParentIsPlaced(records, g, placed, n);
  }

  /** The next record of a pass goes into the graph or to the rest. */
  method PlaceNext(graph: WorkGraph, ghost records: seq<Unit>, record: Unit,
                   ghost placed: seq<nat>, rest: seq<Unit>, ghost left: seq<nat>, ghost later: seq<nat>)
    returns (rest': seq<Unit>, error: Option<GraphError>, ghost placed': seq<nat>, ghost left': seq<nat>)
    requires graph.Valid() && Midway(records, graph.View(), placed, rest, left, later)
    requires later != [] && later[0] < |records| && records[later[0]] == record
    modifies graph
    ensures graph.Valid()
    ensures error.Some? ==> !Acceptable(graph.contains, records)
    ensures error.None? ==> Midway(records, graph.View(), placed', rest', left', later[1..])
    ensures record.parent.Some? && record.parent.value !in old(graph.units) ==>
      graph.View() == old(graph.View()) && rest' == rest + [record] && left' == left + [later[0]] && placed' == placed
    ensures !(record.parent.Some? && record.parent.value !in old(graph.units)) ==>
      rest' == rest && left' == left && placed' == placed + [later[0]]
  {
    ghost var g := graph.View();
    MidwayHead(records, g, placed, rest, left, later);
    var skipped;
    skipped, error := PlaceOne(graph, records, record, later[0], placed);
    if skipped {
      MidwaySkip(records, g, placed, rest, left, later);
      rest', placed', left' := rest + [record], placed, left + [later[0]];
    } else {
      if error.None? { MidwayPlace(records, g, graph.View(), placed, rest, left, later); }
      rest', placed', left' := rest, placed + [later[0]], left;
    }
  }

  method PassOn(graph: WorkGraph, ghost records: seq<Unit>, batch: seq<Unit>, n: nat,
                ghost placed: seq<nat>, rest: seq<Unit>, ghost left: seq<nat>, ghost at: seq<nat>, ghost inOrder: bool)
    returns (rest': seq<Unit>, error: Option<GraphError>, ghost placed': seq<nat>, ghost left': seq<nat>)
    requires Spells(records, batch, at) && n < |batch|
    requires graph.Valid() && Passing(records, graph.View(), placed, rest, left, at, n, inOrder)
    requires inOrder ==> ParentsFirst(records) && at == UpTo(|records|)
    modifies graph
    ensures graph.Valid()
    ensures error.Some? ==> !Acceptable(graph.contains, records)
    ensures error.None? ==> Passing(records, graph.View(), placed', rest', left', at, n + 1, inOrder)
  {
    NextOfPass(records, batch, at, n);
    ghost var g := graph.View();
    rest', error, placed', left' := PlaceNext(graph, records, batch[n], placed, rest, left, at[n..]);
    if error.None? {
      PassGoesOn(records, g, placed, rest, left, at, n, inOrder, graph.View(), placed', rest', left');
    }
  }

  /** One pass over the pending records: place those whose parent is there, keep the rest. */
  method PlacePass(graph: WorkGraph, ghost records: seq<Unit>, batch: seq<Unit>, ghost placed: seq<nat>, ghost at: seq<nat>)
    returns (rest: seq<Unit>, error: Option<GraphError>, ghost placed': seq<nat>, ghost left: seq<nat>)
    requires graph.Valid() && Midway(records, graph.View(), placed, [], [], at)
    requires Spells(records, batch, at)
    modifies graph
    ensures graph.Valid()
    ensures error.Some? ==> !Acceptable(graph.contains, records)
    ensures error.None? ==> Midway(records, graph.View(), placed', rest, left, []) && |rest| <= |batch|
    ensures error.None? && |rest| == |batch| ==> IsWaiting(records, graph.View(), left)
    ensures error.None? && ParentsFirst(records) && placed == [] && at == UpTo(|records|) ==>
      left == [] && placed' == UpTo(|records|)
  {
    rest, left, placed' := [], [], placed;
    ghost var inOrder := ParentsFirst(records) && placed == [] && at == UpTo(|records|);
    for n := 0 to |batch|
      invariant graph.Valid() && Passing(records, graph.View(), placed', rest, left, at, n, inOrder)
    {
      rest, error, placed', left := PassOn(graph, records, batch, n, placed', rest, left, at, inOrder);
      if error.Some? { return; }
    }
    assert at[|batch|..] == [];
    return rest, None, placed', left;
  }

  /** A pass after `n` of its records. */
  ghost predicate Passing(records: seq<Unit>, g: Graph, placed: seq<nat>, rest: seq<Unit>, left: seq<nat>, at: seq<nat>,
                          n: nat, inOrder: bool)
    requires n <= |at|
  {
    && Midway(records, g, placed, rest, left, at[n..])
    && |rest| <= n && (|rest| == n ==> IsWaiting(records, g, left))
    && (inOrder ==> left == [] && placed == UpTo(n))
  }

  lemma PassGoesOn(records: seq<Unit>, g: Graph, placed: seq<nat>, rest: seq<Unit>, left: seq<nat>, at: seq<nat>, n: nat, inOrder: bool,
                   g': Graph, placed': seq<nat>, rest': seq<Unit>, left': seq<nat>)
    requires n < |at| && Passing(records, g, placed, rest, left, at, n, inOrder)
    requires inOrder ==> ParentsFirst(records) && at == UpTo(|records|)
    requires at[n] < |records| && Midway(records, g', placed', rest', left', at[n + 1..])
    requires var record := records[at[n]];
      if record.parent.Some? && record.parent.value !in g.units
      then g' == g && rest' == rest + [record] && left' == left + [at[n]] && placed' == placed
      else rest' == rest && left' == left && placed' == placed + [at[n]]
    ensures Passing(records, g', placed', rest', left', at, n + 1, inOrder)
  {
    if inOrder {
      ParentIsNext(records, g, placed, rest, left, at[n..], n);
      assert UpTo(n) + [n] == UpTo(n + 1);
    }
  }

  lemma NextOfPass(records: seq<Unit>, batch: seq<Unit>, at: seq<nat>, n: nat)
    requires Spells(records, batch, at) && n < |batch|
    ensures at[n..] != [] && at[n..][0] == at[n] < |records| && records[at[n]] == batch[n] && at[n..][1..] == at[n + 1..]
  {
  }

  lemma ParentIsPlaced(records: seq<Unit>, g: Graph, placed: seq<nat>, n: nat)
    requires ParentsFirst(records) && placed == UpTo(n) && n < |records| && Holds(records, g, placed)
    ensures records[n].parent.Some? ==> records[n].parent.value in g.units
  {
    if records[n].parent.None? { return; }
    var j :| 0 <= j < n && records[j].id == records[n].parent.value;
    assert placed[j] == j;
  }

  /** Drain the pending records pass by pass.  A graph comes back exactly when the ids are distinct,
      the parent relation is closed and acyclic, and every edge narrows; it then holds exactly the
      records, in the given order if parents already came first. */
  method Coerce(contains: Containment, records: seq<Unit>) returns (graph: WorkGraph?, error: Option<GraphError>)
    ensures graph == null <==> error.Some?
    ensures graph != null <==> Acceptable(contains, records)
    ensures graph != null ==> fresh(graph) && graph.Valid() && graph.contains == contains
    ensures graph != null ==>
      && graph.units.Keys == RecordIds(records)
      && forall r | r in records :: graph.units[r.id] == r
    ensures graph != null && ParentsFirst(records) ==>
      |graph.order| == |records| && forall i | 0 <= i < |records| :: graph.order[i] == records[i].id
  {
    var g := new WorkGraph(contains);
    var pending := records;
    ghost var placed: seq<nat>, left := [], UpTo(|records|);
    MidwayStarts(records, g.View());
    while pending != []
      invariant fresh(g) && g.Valid() && g.contains == contains
      invariant Midway(records, g.View(), placed, [], [], left) && Spells(records, pending, left)
      invariant ParentsFirst(records) ==>
        (placed == [] && left == UpTo(|records|)) || (left == [] && placed == UpTo(|records|))
      decreases |pending|
    {
      var rest, failed, placed', left' := PlacePass(g, records, pending, placed, left);
      if failed.Some? { return null, failed; }
      MidwayEnds(records, g.View(), placed', rest, left');
      placed, left := placed', left';
      if |rest| == |pending| {
        StuckIsUnacceptable(contains, records, g.View(), placed, left);
        return null, Some(MissingOrCyclicParent);
      }
      pending := rest;
    }
    PlacedAllIsAnswer(contains, records, g.View(), placed, left);
    return g, None;
  }

  lemma PlacedAllIsAnswer(contains: Containment, records: seq<Unit>, g: Graph, placed: seq<nat>, left: seq<nat>)
    requires WellFormed(contains, g) && Midway(records, g, placed, [], [], left) && left == []
    ensures Acceptable(contains, records)
    ensures g.units.Keys == RecordIds(records) && forall r | r in records :: g.units[r.id] == r
    ensures placed == UpTo(|records|) ==>
      |g.order| == |records| && forall i | 0 <= i < |records| :: g.order[i] == records[i].id
  {
    assert [] + left == [];
    PlacedAllIsAcceptable(contains, records, g, placed);
    PlacedAllIsTable(contains, records, g, placed);
  }

  /* --------------------------------------------------------------- round trip */

  /** The records of a graph, in the order they were stored. */
  function RecordsOf(g: Graph): seq<Unit>
    requires forall id | id in g.order :: id in g.units
  {
    seq(|g.order|, i requires 0 <= i < |g.order| => g.units[g.order[i]])
  }

  /** The records of a well-formed graph are accepted, with parents first. */
  lemma RecordsAreAcceptable(contains: Containment, g: Graph)
    requires WellFormed(contains, g)
    ensures (forall id | id in g.order :: id in g.units)
      && Acceptable(contains, RecordsOf(g)) && ParentsFirst(RecordsOf(g))
  {
    assert forall id | id in g.order :: id in Members(g.order);
    var records := RecordsOf(g);
    var placed := UpTo(|records|);
    forall k | 0 <= k < |g.order| ensures g.units[g.order[k]].id == g.order[k] { assert UnitOk(contains, g, k); }
    UpToCovers(|records|);
    PlacedAllIsAcceptable(contains, records, g, placed);
    RecordsComeParentsFirst(contains, g);
  }

  lemma RecordsComeParentsFirst(contains: Containment, g: Graph)
    requires WellFormed(contains, g) && forall id | id in g.order :: id in g.units
    ensures ParentsFirst(RecordsOf(g))
  {
    var records := RecordsOf(g);
    forall k | 0 <= k < |g.order| ensures records[k].id == g.order[k] { assert UnitOk(contains, g, k); }
    forall i | 0 <= i < |records| && records[i].parent.Some?
      ensures exists j | 0 <= j < i :: records[j].id == records[i].parent.value
    {
      assert UnitOk(contains, g, i);
      var j :| 0 <= j < i && g.order[..i][j] == records[i].parent.value;
    }
  }

  /** Writing a graph out and reading it back gives the same graph: units, order and child index. */
  method RoundTrip(contains: Containment, g: Graph) returns (graph: WorkGraph?, error: Option<GraphError>)
    requires WellFormed(contains, g)
    ensures graph != null && graph.View() == g
  {
    RecordsAreAcceptable(contains, g);
    graph, error := Coerce(contains, RecordsOf(g));
    forall k | 0 <= k < |g.order| ensures graph.order[k] == g.order[k] && graph.units[g.order[k]] == g.units[g.order[k]] {
      assert UnitOk(contains, g, k);
      assert RecordsOf(g)[k] in RecordsOf(g);
    }
    assert graph.order == g.order;
    assert Members(graph.order) == Members(g.order);
    SameTablesSameIndex(graph.View(), g);
  }

  lemma SameTablesSameIndex(a: Graph, b: Graph)
    requires IndexOk(a) && IndexOk(b) && a.order == b.order && a.units == b.units
    ensures a == b
  {
    forall p ensures p in a.children <==> p in b.children {
      assert Kids(a.order, a.units, p) == Kids(b.order, b.units, p);
    }
    assert a.children == b.children;
  }
}
