/** The lane-local work graph: units that may only narrow what their parent allows, added one at a
    time or in batches. */
module WorkGraphs {
  import opened Common
  import opened Graphs

  datatype Unit = Unit(
    id: string, parent: Option<string>,
    scope: seq<string>, authority: seq<string>, ownership: seq<string>, details: string)

  /** A child as the caller describes it: what is left out is inherited from the parent.  A parent may
      be left out too, or given, even as none at all. */
  datatype ChildSpec = ChildSpec(
    id: string, parent: Option<Option<string>>,
    scope: Option<seq<string>>, authority: Option<seq<string>>, ownership: Option<seq<string>>, details: string)

  datatype GraphError = BadValues | Duplicate | MissingParent | NotNarrower | WrongParent | MissingOrCyclicParent

  /** Does the first path pattern contain the second? */
  type Containment = (string, string) -> bool

  datatype Graph = Graph(order: seq<string>, units: map<string, Unit>, children: map<string, seq<string>>)

  const EMPTY_GRAPH := Graph([], map[], map[])

  /* ---------------------------------------------------------------- narrowing */

  predicate Within(contains: Containment, inner: seq<string>, outer: seq<string>) {
    forall c | c in inner :: exists p | p in outer :: contains(p, c)
  }

  predicate Narrows(contains: Containment, parent: Unit, child: Unit) {
    && Within(contains, child.scope, parent.scope)
    && Members(child.authority) <= Members(parent.authority)
    && Within(contains, child.ownership, parent.ownership)
  }

  /** A list as a unit may hold it: no entry is blank or repeated. */
  predicate IsList(values: seq<string>) {
    && (forall v | v in values :: Strip(v) != "")
    && forall i, j | 0 <= i < j < |values| :: values[i] != values[j]
  }

  predicate HasLists(u: Unit) {
    IsList(u.scope) && IsList(u.authority) && IsList(u.ownership)
  }

  /* ----------------------------------------------------------- well-formedness */

  /** The units of `order` whose parent is `p`, in order. */
  function Kids(order: seq<string>, units: map<string, Unit>, p: string): seq<string> {
    if order == [] then []
    else
      var last := order[|order| - 1];
      var before := Kids(order[..|order| - 1], units, p);
      if last in units && units[last].parent == Some(p) then before + [last] else before
  }

  ghost predicate UnitOk(contains: Containment, g: Graph, i: nat)
    requires i < |g.order|
  {
    var id := g.order[i];
    && id in g.units && g.units[id].id == id && HasLists(g.units[id])
    && (g.units[id].parent.Some? ==>
          var p := g.units[id].parent.value;
          p in g.order[..i] && p in g.units && Narrows(contains, g.units[p], g.units[id]))
  }

  ghost predicate IndexOk(g: Graph) {
    && (forall p | p in g.children :: g.children[p] == Kids(g.order, g.units, p) && g.children[p] != [])
    && (forall p :: p !in g.children ==> Kids(g.order, g.units, p) == [])
  }

  /** Every unit is stored once, after its parent, within its parent, and in the child index. */
  ghost predicate WellFormed(contains: Containment, g: Graph) {
    && Members(g.order) == g.units.Keys
    && (forall i, j | 0 <= i < j < |g.order| :: g.order[i] != g.order[j])
    && (forall i {:trigger UnitOk(contains, g, i)} | 0 <= i < |g.order| :: UnitOk(contains, g, i))
    && IndexOk(g)
  }

  /** What committing a unit does when its checks pass. */
  function Committed(g: Graph, u: Unit): Graph {
    Graph(
      g.order + [u.id], g.units[u.id := u],
      if u.parent.Some? then
        var p := u.parent.value;
        g.children[p := (if p in g.children then g.children[p] else []) + [u.id]]
      else g.children)
  }

  ghost predicate CanCommit(contains: Containment, g: Graph, u: Unit) {
    && HasLists(u) && u.id !in g.units
    && (u.parent.Some? ==> u.parent.value in g.units && Narrows(contains, g.units[u.parent.value], u))
  }

  lemma {:induction false} KidsIgnoreNewUnit(order: seq<string>, units: map<string, Unit>, u: Unit, p: string)
    requires u.id !in order
    ensures Kids(order, units[u.id := u], p) == Kids(order, units, p)
  {
    if order != [] { KidsIgnoreNewUnit(order[..|order| - 1], units, u, p); }
  }

  lemma CommittedIndex(g: Graph, u: Unit)
    requires IndexOk(g) && u.id !in g.order
    ensures IndexOk(Committed(g, u))
  {
    var after := Committed(g, u);
    forall p ensures Kids(after.order, after.units, p) ==
      Kids(g.order, g.units, p) + if u.parent == Some(p) then [u.id] else []
    {
      KidsIgnoreNewUnit(g.order, g.units, u, p);
      assert after.order[..|after.order| - 1] == g.order;
    }
  }

  lemma CommittedKeepsUnit(contains: Containment, g: Graph, u: Unit, i: nat)
    requires Members(g.order) == g.units.Keys && u.id !in g.units && i < |g.order| && UnitOk(contains, g, i)
    ensures UnitOk(contains, Committed(g, u), i)
  {
    assert Committed(g, u).order[..i] == g.order[..i];
    assert g.order[i] in Members(g.order);
  }

  lemma CommittedUnitIsOk(contains: Containment, g: Graph, u: Unit)
    requires Members(g.order) == g.units.Keys && CanCommit(contains, g, u)
    ensures UnitOk(contains, Committed(g, u), |g.order|)
  {
    assert Committed(g, u).order[..|g.order|] == g.order;
    assert u.parent.Some? ==> u.parent.value in Members(g.order);
  }

  lemma CommitKeepsWellFormed(contains: Containment, g: Graph, u: Unit)
    requires WellFormed(contains, g) && CanCommit(contains, g, u)
    ensures WellFormed(contains, Committed(g, u))
  {
    var after := Committed(g, u);
    assert u.id !in Members(g.order);
    CommittedIndex(g, u);
    CommittedUnitIsOk(contains, g, u);
    assert Members(after.order) == Members(g.order) + {u.id};
    forall i | 0 <= i < |after.order| ensures UnitOk(contains, after, i) {
      if i < |g.order| { CommittedKeepsUnit(contains, g, u, i); }
    }
  }

  /* ----------------------------------------------------------------- the graph */

  class WorkGraph {
    const contains: Containment
    var order: seq<string>
    var units: map<string, Unit>
    var children: map<string, seq<string>>

    function View(): Graph
      reads this
    {
      Graph(order, units, children)
    }

    ghost predicate Valid()
      reads this
    {
      WellFormed(contains, View())
    }

    constructor (contains: Containment)
      ensures Valid() && this.contains == contains && View() == EMPTY_GRAPH
    {
      this.contains := contains;
      order, units, children := [], map[], map[];
    }

    /** Add a unit, below a parent or not. */
    method Add(u: Unit) returns (error: Option<GraphError>)
      requires Valid()
      modifies this
      ensures Valid()
      ensures error.None? <==> CanCommit(contains, old(View()), u)
      ensures View() == if error.None? then Committed(old(View()), u) else old(View())
      ensures error == Some(BadValues) <==> !HasLists(u)
    {
      if !HasLists(u) { return Some(BadValues); }
      error := Commit(u);
    }

    /** Check the id and the parent, store the unit, and index it under its parent. */
    method Commit(u: Unit) returns (error: Option<GraphError>)
      requires Valid() && HasLists(u)
      modifies this
      ensures Valid()
      ensures error.None? <==> CanCommit(contains, old(View()), u)
      ensures View() == if error.None? then Committed(old(View()), u) else old(View())
      ensures error == Some(Duplicate) <==> u.id in old(units)
      ensures error != Some(BadValues)
    {
      if u.id in units { return Some(Duplicate); }
      if u.parent.Some? {
        if u.parent.value !in units { return Some(MissingParent); }
        if !Narrows(contains, units[u.parent.value], u) { return Some(NotNarrower); }
      }
      CommitKeepsWellFormed(contains, View(), u);
      order := order + [u.id];
      units := units[u.id := u];
      if u.parent.Some? {
        var p := u.parent.value;
        var siblings := if p in children then children[p] else [];
        children := children[p := siblings + [u.id]];
      }
      return None;
    }

    /** Add one child below an existing unit: what is left out is inherited, what is given may only
        narrow.  It succeeds exactly when a batch of this one child would. */
    method AddChild(parent: string, spec: ChildSpec) returns (error: Option<GraphError>)
      requires Valid()
      modifies this
      ensures Valid()
      ensures error.None? <==> CanExpand(contains, old(View()), parent, [spec])
      ensures error.Some? ==> View() == old(View())
      ensures error.None? ==>
        parent in old(units) && View() == Committed(old(View()), Inherit(parent, old(units)[parent], spec))
    {
      OneChildExpandsExactly(contains, View(), parent, spec);
      if parent !in units { return Some(MissingParent); }
      var child := Inherit(parent, units[parent], spec);
      if !HasLists(child) { return Some(BadValues); }
      if spec.parent.Some? && spec.parent.value != Some(parent) { return Some(WrongParent); }
      if !Narrows(contains, units[parent], child) { return Some(NotNarrower); }
      error := Commit(child);
    }

    /** Add a batch of children below an existing unit.  Every child is checked before the first
        is committed, and those checks leave no commit that can fail. */
    method Expand(parent: string, specs: seq<ChildSpec>) returns (error: Option<GraphError>)
      requires Valid()
      modifies this
      ensures Valid()
      ensures error.Some? ==> View() == old(View())
      ensures error.None? ==>
        && parent in old(units)
        && View() == CommittedAll(old(View()), Prepared(parent, old(units)[parent], specs))
      ensures error.None? <==> CanExpand(contains, old(View()), parent, specs)
    {
      var prepared;
      prepared, error := PrepareExpansion(contains, View(), parent, specs);
      if error.Some? { return; }
      PreparedIsCommittable(contains, View(), parent, specs);
      CommitBatch(parent, prepared);
    }

    /** Commit a prepared batch; no commit in it can fail. */
    method CommitBatch(parent: string, batch: seq<Unit>)
      requires Valid() && Committable(contains, View(), parent, batch)
      modifies this
      ensures Valid() && View() == CommittedAll(old(View()), batch)
    {
      for i := 0 to |batch|
        invariant Valid() && View() == CommittedAll(old(View()), batch[..i])
        invariant Committable(contains, View(), parent, batch[i..])
      {
        assert batch[..i + 1][..i] == batch[..i];
        CommittableStep(contains, View(), parent, batch[i..]);
        assert batch[i..][0] == batch[i] && batch[i..][1..] == batch[i + 1..];
        var failed := Commit(batch[i]);
        assert failed.None?;
      }
      assert batch[..|batch|] == batch;
    }
  }

  /* ---------------------------------------------------------------- expansion */

  function Inherit(parent: string, from: Unit, spec: ChildSpec): Unit {
    Unit(spec.id, Some(parent),
         if spec.scope.Some? then spec.scope.value else from.scope,
         if spec.authority.Some? then spec.authority.value else from.authority,
         if spec.ownership.Some? then spec.ownership.value else from.ownership,
         spec.details)
  }

  function Prepared(parent: string, from: Unit, specs: seq<ChildSpec>): seq<Unit> {
    seq(|specs|, i requires 0 <= i < |specs| => Inherit(parent, from, specs[i]))
  }

  function CommittedAll(g: Graph, batch: seq<Unit>): Graph {
    if batch == [] then g else Committed(CommittedAll(g, batch[..|batch| - 1]), batch[|batch| - 1])
  }

  /** A child that names no other parent, has proper lists and narrows the parent. */
  predicate FitsUnder(contains: Containment, from: Unit, parent: string, spec: ChildSpec) {
    var record := Inherit(parent, from, spec);
    (spec.parent.Some? ==> spec.parent.value == Some(parent)) && HasLists(record) && Narrows(contains, from, record)
  }

  ghost predicate CanExpand(contains: Containment, g: Graph, parent: string, specs: seq<ChildSpec>) {
    && parent in g.units
    && (forall i | 0 <= i < |specs| :: specs[i].id !in g.units && FitsUnder(contains, g.units[parent], parent, specs[i]))
    && (forall i, j | 0 <= i < j < |specs| :: specs[i].id != specs[j].id)
  }

  lemma OneChildExpandsExactly(contains: Containment, g: Graph, parent: string, spec: ChildSpec)
    ensures CanExpand(contains, g, parent, [spec]) <==>
      parent in g.units && spec.id !in g.units && FitsUnder(contains, g.units[parent], parent, spec)
  {
    assert [spec][0] == spec;
  }

  /** One child of a batch, checked against the parent and the ids taken so far. */
  method CheckChild(contains: Containment, from: Unit, parent: string, seen: set<string>, spec: ChildSpec)
    returns (record: Unit, error: Option<GraphError>)
    ensures record == Inherit(parent, from, spec)
    ensures error.None? <==> spec.id !in seen && FitsUnder(contains, from, parent, spec)
  {
    record := Inherit(parent, from, spec);
    if !HasLists(record) { return record, Some(BadValues); }
    if spec.parent.Some? && spec.parent.value != Some(parent) { return record, Some(WrongParent); }
    if record.id in seen { return record, Some(Duplicate); }
    if !Narrows(contains, from, record) { return record, Some(NotNarrower); }
    error := None;
  }

  /** A batch after its first children: all of them can be expanded, and their ids are taken. */
  ghost predicate Preparing(contains: Containment, g: Graph, parent: string, done: seq<ChildSpec>, prepared: seq<Unit>, seen: set<string>) {
    && CanExpand(contains, g, parent, done)
    && prepared == Prepared(parent, g.units[parent], done)
    && seen == g.units.Keys + IdsOf(done)
  }

  function IdsOf(specs: seq<ChildSpec>): set<string> {
    set spec | spec in specs :: spec.id
  }

  lemma IdsOfAppended(specs: seq<ChildSpec>, spec: ChildSpec)
    ensures IdsOf(specs + [spec]) == IdsOf(specs) + {spec.id}
  {
    assert forall other :: other in specs + [spec] <==> other in specs || other == spec;
  }

  lemma OneMoreExpands(contains: Containment, g: Graph, parent: string, done: seq<ChildSpec>, spec: ChildSpec)
    requires CanExpand(contains, g, parent, done) && FitsUnder(contains, g.units[parent], parent, spec)
    requires spec.id !in g.units.Keys + IdsOf(done)
    ensures CanExpand(contains, g, parent, done + [spec])
  {
    forall i | 0 <= i < |done| ensures done[i].id != spec.id { assert done[i] in done; }
  }

  lemma PreparedAppended(parent: string, from: Unit, done: seq<ChildSpec>, spec: ChildSpec)
    ensures Prepared(parent, from, done + [spec]) == Prepared(parent, from, done) + [Inherit(parent, from, spec)]
  {
  }

  lemma PreparingGoesOn(contains: Containment, g: Graph, parent: string, done: seq<ChildSpec>, prepared: seq<Unit>, seen: set<string>,
                        spec: ChildSpec)
    requires Preparing(contains, g, parent, done, prepared, seen)
    requires spec.id !in seen && FitsUnder(contains, g.units[parent], parent, spec)
    ensures Preparing(contains, g, parent, done + [spec], prepared + [Inherit(parent, g.units[parent], spec)], seen + {spec.id})
  {
    OneMoreExpands(contains, g, parent, done, spec);
    PreparedAppended(parent, g.units[parent], done, spec);
    IdsOfAppended(done, spec);
  }

  lemma Unexpandable(contains: Containment, g: Graph, parent: string, specs: seq<ChildSpec>, i: nat)
    requires i < |specs| && parent in g.units
    requires specs[i].id in g.units.Keys + IdsOf(specs[..i]) || !FitsUnder(contains, g.units[parent], parent, specs[i])
    ensures !CanExpand(contains, g, parent, specs)
  {
    if specs[i].id in IdsOf(specs[..i]) {
      var spec :| spec in specs[..i] && spec.id == specs[i].id;
      var j :| 0 <= j < i && specs[j] == spec;
    }
  }

  /** Check every child against the parent, the graph and the children before it. */
  method PrepareExpansion(contains: Containment, g: Graph, parent: string, specs: seq<ChildSpec>)
    returns (prepared: seq<Unit>, error: Option<GraphError>)
    ensures error.None? <==> CanExpand(contains, g, parent, specs)
    ensures error.None? ==> prepared == Prepared(parent, g.units[parent], specs)
  {
    prepared := [];
    if parent !in g.units { return prepared, Some(MissingParent); }
    var seen := g.units.Keys;
    for i := 0 to |specs|
      invariant Preparing(contains, g, parent, specs[..i], prepared, seen)
    {
      assert specs[..i + 1] == specs[..i] + [specs[i]];
      var record, refused := CheckChild(contains, g.units[parent], parent, seen, specs[i]);
      if refused.Some? {
        Unexpandable(contains, g, parent, specs, i);
        return prepared, refused;
      }
      PreparingGoesOn(contains, g, parent, specs[..i], prepared, seen, specs[i]);
      prepared := prepared + [record];
      seen := seen + {record.id};
    }
    assert specs[..|specs|] == specs;
    return prepared, None;
  }

  /** New units with distinct ids, all inside the one parent they name. */
  ghost predicate Committable(contains: Containment, g: Graph, parent: string, batch: seq<Unit>) {
    && parent in g.units
    && (forall i | 0 <= i < |batch| ::
          && batch[i].parent == Some(parent) && batch[i].id !in g.units
          && HasLists(batch[i]) && Narrows(contains, g.units[parent], batch[i]))
    && (forall i, j | 0 <= i < j < |batch| :: batch[i].id != batch[j].id)
  }

  lemma PreparedIsCommittable(contains: Containment, g: Graph, parent: string, specs: seq<ChildSpec>)
    requires CanExpand(contains, g, parent, specs)
    ensures Committable(contains, g, parent, Prepared(parent, g.units[parent], specs))
  {
  }

  lemma CommittableStep(contains: Containment, g: Graph, parent: string, batch: seq<Unit>)
    requires Committable(contains, g, parent, batch) && batch != []
    ensures CanCommit(contains, g, batch[0])
    ensures Committable(contains, Committed(g, batch[0]), parent, batch[1..])
  {
    var after := Committed(g, batch[0]);
    assert parent != batch[0].id && after.units[parent] == g.units[parent];
    forall i | 0 <= i < |batch[1..]| ensures batch[1..][i].id !in after.units {
      assert batch[1..][i] == batch[i + 1];
    }
  }

  /* ------------------------------------------------------- descendants narrow */

  /** `d` is `steps` parent links below `a`. */
  ghost predicate Below(g: Graph, d: string, a: string, steps: nat)
    decreases steps
  {
    if steps == 0 then d == a && d in g.units
    else d in g.units && g.units[d].parent.Some? && Below(g, g.units[d].parent.value, a, steps - 1)
  }

  /** Transitive on the strings a unit may hold. */
  ghost predicate Transitive(contains: Containment) {
    forall x, y, z | Strip(x) != "" && Strip(y) != "" && Strip(z) != "" && contains(x, y) && contains(y, z) :: contains(x, z)
  }

  /** What a pattern contains may be narrowed again and stays inside the pattern, through any of the
      given patterns. */
  ghost predicate TransitiveThrough(contains: Containment, x: string, patterns: set<string>) {
    forall y, z | y in patterns && z in patterns && contains(x, y) && contains(y, z) :: contains(x, z)
  }

  function PathsOf(u: Unit): set<string> {
    Members(u.scope) + Members(u.ownership)
  }

  /** Every pattern a unit of the graph uses. */
  function AllPaths(g: Graph): set<string> {
    set id, p | id in g.units && p in PathsOf(g.units[id]) :: p
  }

  lemma WithinIsTransitive(contains: Containment, patterns: set<string>, a: seq<string>, b: seq<string>, c: seq<string>)
    requires Members(a) <= patterns && Members(b) <= patterns && forall x | x in c :: TransitiveThrough(contains, x, patterns)
    requires Within(contains, a, b) && Within(contains, b, c)
    ensures Within(contains, a, c)
  {
    forall x | x in a ensures exists z | z in c :: contains(z, x) {
      var y :| y in b && contains(y, x);
      var z :| z in c && contains(z, y);
      assert x in Members(a) && y in Members(b);
    }
  }

  lemma EdgeNarrows(contains: Containment, g: Graph, d: string)
    requires WellFormed(contains, g) && d in g.units && g.units[d].parent.Some?
    ensures g.units[d].parent.value in g.units && Narrows(contains, g.units[g.units[d].parent.value], g.units[d])
  {
    assert d in g.order;
    var i :| 0 <= i < |g.order| && g.order[i] == d;
    assert UnitOk(contains, g, i);
  }

  /** Authority only shrinks on the way down, whatever path containment is. */
  lemma {:induction false} AuthorityShrinks(contains: Containment, g: Graph, d: string, a: string, steps: nat)
    requires WellFormed(contains, g) && Below(g, d, a, steps)
    ensures a in g.units && Members(g.units[d].authority) <= Members(g.units[a].authority)
    decreases steps
  {
    if steps > 0 {
      EdgeNarrows(contains, g, d);
      AuthorityShrinks(contains, g, g.units[d].parent.value, a, steps - 1);
    }
  }

  /** Scope and ownership stay inside an ancestor from whose patterns containment is transitive through
      the patterns of the graph. */
  lemma {:induction false} PathsShrink(contains: Containment, g: Graph, d: string, a: string, steps: nat)
    requires WellFormed(contains, g) && Below(g, d, a, steps) && steps > 0
    requires a in g.units ==> forall x | x in PathsOf(g.units[a]) :: TransitiveThrough(contains, x, AllPaths(g))
    ensures a in g.units
    ensures Within(contains, g.units[d].scope, g.units[a].scope)
    ensures Within(contains, g.units[d].ownership, g.units[a].ownership)
    decreases steps
  {
    EdgeNarrows(contains, g, d);
    var p := g.units[d].parent.value;
    if steps > 1 {
      PathsShrink(contains, g, p, a, steps - 1);
      assert PathsOf(g.units[d]) <= AllPaths(g) && PathsOf(g.units[p]) <= AllPaths(g);
      WithinIsTransitive(contains, AllPaths(g), g.units[d].scope, g.units[p].scope, g.units[a].scope);
      WithinIsTransitive(contains, AllPaths(g), g.units[d].ownership, g.units[p].ownership, g.units[a].ownership);
    }
  }

  function Scoped(id: string, parent: Option<string>, path: string): Unit {
    Unit(id, parent, [path], [], [], "")
  }

  /** Three nested units with the given scopes. */
  function Nested(ids: (string, string, string), x: string, y: string, z: string): Graph {
    Committed(OneInside(ids.0, ids.1, x, y), Scoped(ids.2, Some(ids.1), z))
  }

  function OneInside(a: string, b: string, x: string, y: string): Graph {
    Committed(Alone(a, x), Scoped(b, Some(a), y))
  }

  function Alone(a: string, x: string): Graph {
    Graph([a], map[a := Scoped(a, None, x)], map[])
  }

  lemma NestingIsAllowed(contains: Containment, g: Graph, id: string, parent: string, inner: string, outer: string)
    requires WellFormed(contains, g) && contains(outer, inner) && Strip(inner) != ""
    requires id !in g.units && parent in g.units && g.units[parent] == Scoped(parent, g.units[parent].parent, outer)
    ensures WellFormed(contains, Committed(g, Scoped(id, Some(parent), inner)))
  {
    assert Within(contains, [inner], [outer]) by { assert outer in [outer]; }
    CommitKeepsWellFormed(contains, g, Scoped(id, Some(parent), inner));
  }

  lemma AloneIsWellFormed(contains: Containment, a: string, x: string)
    requires Strip(x) != ""
    ensures WellFormed(contains, Alone(a, x))
  {
    forall p ensures Kids([a], Alone(a, x).units, p) == [] {
      assert Kids([a][..0], Alone(a, x).units, p) == [];
    }
    assert UnitOk(contains, Alone(a, x), 0);
  }

  lemma OneInsideIsWellFormed(contains: Containment, a: string, b: string, x: string, y: string)
    requires contains(x, y) && a != b && Strip(x) != "" && Strip(y) != ""
    ensures WellFormed(contains, OneInside(a, b, x, y))
  {
    AloneIsWellFormed(contains, a, x);
    NestingIsAllowed(contains, Alone(a, x), b, a, y, x);
  }

  lemma NestedIsWellFormed(contains: Containment, ids: (string, string, string), x: string, y: string, z: string)
    requires contains(x, y) && contains(y, z) && ids.0 != ids.1 && ids.1 != ids.2 && ids.0 != ids.2
    requires Strip(x) != "" && Strip(y) != "" && Strip(z) != ""
    ensures WellFormed(contains, Nested(ids, x, y, z))
  {
    OneInsideIsWellFormed(contains, ids.0, ids.1, x, y);
    NestingIsAllowed(contains, OneInside(ids.0, ids.1, x, y), ids.2, ids.1, z, y);
  }

  lemma NestedIsBelow(ids: (string, string, string), x: string, y: string, z: string)
    requires ids.0 != ids.1 && ids.1 != ids.2 && ids.0 != ids.2
    ensures var g := Nested(ids, x, y, z);
      Below(g, ids.2, ids.0, 2) && g.units[ids.2].scope == [z] && g.units[ids.0].scope == [x]
  {
    var g := Nested(ids, x, y, z);
    assert Below(g, ids.0, ids.0, 0);
    assert Below(g, ids.1, ids.0, 1);
  }
}
