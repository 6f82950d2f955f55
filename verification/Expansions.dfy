/** What may be hung below a unit, and what the graph holds afterwards, child by child. */
module Expansions {
  import opened Common
  import opened WorkGraphs

  /** Every entry says something and none is repeated. */
  ghost predicate IsProper(values: seq<string>) {
    && (forall i | 0 <= i < |values| :: SaysSomething(values[i]))
    && forall i, j | 0 <= i < |values| && 0 <= j < |values| && values[i] == values[j] :: i == j
  }

  ghost predicate IsInside(contains: Containment, inner: seq<string>, outer: seq<string>) {
    forall i | 0 <= i < |inner| :: IsCovered(contains, inner[i], outer)
  }

  ghost predicate IsCovered(contains: Containment, path: string, patterns: seq<string>) {
    exists j :: 0 <= j < |patterns| && contains(patterns[j], path)
  }

  function Given(choice: Option<seq<string>>, inherited: seq<string>): seq<string> {
    match choice
    case Some(values) => values
    case None => inherited
  }

  /** The unit has proper lists, and asks for nothing its parent does not have. */
  ghost predicate MayHangBelow(contains: Containment, from: Unit, u: Unit) {
    && IsProper(u.scope) && IsProper(u.authority) && IsProper(u.ownership)
    && IsInside(contains, u.scope, from.scope) && IsInside(contains, u.ownership, from.ownership)
    && forall a :: a in u.authority ==> a in from.authority
  }

  lemma ListsAreProper(values: seq<string>)
    ensures IsList(values) <==> IsProper(values)
  {
    forall i | 0 <= i < |values| ensures Strip(values[i]) != "" <==> SaysSomething(values[i]) {
      AllBlankStripsAway(values[i]);
    }
    if IsList(values) {
      forall i | 0 <= i < |values| ensures SaysSomething(values[i]) {
        assert values[i] in values;
      }
    }
    if IsProper(values) {
      forall v | v in values ensures Strip(v) != "" {
        var i :| 0 <= i < |values| && values[i] == v;
      }
    }
  }

  lemma WithinExactly(contains: Containment, inner: seq<string>, outer: seq<string>)
    ensures Within(contains, inner, outer) <==> IsInside(contains, inner, outer)
  {
    if Within(contains, inner, outer) {
      forall i | 0 <= i < |inner| ensures IsCovered(contains, inner[i], outer) {
        assert inner[i] in inner;
        var p :| p in outer && contains(p, inner[i]);
        var j :| 0 <= j < |outer| && outer[j] == p;
      }
    }
    if IsInside(contains, inner, outer) {
      forall c | c in inner ensures exists p | p in outer :: contains(p, c) {
        var i :| 0 <= i < |inner| && inner[i] == c;
        assert IsCovered(contains, inner[i], outer);
        var j :| 0 <= j < |outer| && contains(outer[j], inner[i]);
        assert outer[j] in outer;
      }
    }
  }

  lemma AuthorityExactly(inner: seq<string>, outer: seq<string>)
    ensures Members(inner) <= Members(outer) <==> forall a :: a in inner ==> a in outer
  {
    if Members(inner) <= Members(outer) {
      forall a | a in inner ensures a in outer { assert a in Members(inner); }
    }
  }

  lemma HangsExactly(contains: Containment, from: Unit, u: Unit)
    ensures HasLists(u) && Narrows(contains, from, u) <==> MayHangBelow(contains, from, u)
  {
    ListsAreProper(u.scope);
    ListsAreProper(u.authority);
    ListsAreProper(u.ownership);
    WithinExactly(contains, u.scope, from.scope);
    WithinExactly(contains, u.ownership, from.ownership);
    AuthorityExactly(u.authority, from.authority);
  }

  /** The unit a description stands for below this parent: what it leaves out is the parent's. */
  function Described(parent: string, from: Unit, spec: ChildSpec): Unit {
    Unit(spec.id, Some(parent), Given(spec.scope, from.scope), Given(spec.authority, from.authority),
         Given(spec.ownership, from.ownership), spec.details)
  }

  /** A batch can be expanded exactly when its parent is there, its ids are new and distinct, and each child
      names no other parent and may hang below this one with what it inherits. */
  lemma ExpandableExactly(contains: Containment, g: Graph, parent: string, specs: seq<ChildSpec>)
    ensures CanExpand(contains, g, parent, specs) <==>
      && parent in g.units
      && (forall i | 0 <= i < |specs| ::
            && specs[i].id !in g.units
            && (specs[i].parent.None? || specs[i].parent.value == Some(parent))
            && MayHangBelow(contains, g.units[parent], Described(parent, g.units[parent], specs[i])))
      && (forall i, j | 0 <= i < |specs| && 0 <= j < |specs| && specs[i].id == specs[j].id :: i == j)
  {
    if parent in g.units {
      forall i | 0 <= i < |specs|
        ensures FitsUnder(contains, g.units[parent], parent, specs[i]) <==>
          && (specs[i].parent.None? || specs[i].parent.value == Some(parent))
          && MayHangBelow(contains, g.units[parent], Described(parent, g.units[parent], specs[i]))
      {
        HangsExactly(contains, g.units[parent], Described(parent, g.units[parent], specs[i]));
      }
    }
  }

  function IdsInOrder(units: seq<Unit>): seq<string> {
    seq(|units|, i requires 0 <= i < |units| => units[i].id)
  }

  lemma IdsInit(units: seq<Unit>)
    requires units != []
    ensures IdsInOrder(units) == IdsInOrder(units[..|units| - 1]) + [units[|units| - 1].id]
  {
  }

  lemma {:induction false} CommittedInOrder(g: Graph, batch: seq<Unit>)
    ensures CommittedAll(g, batch).order == g.order + IdsInOrder(batch)
  {
    if batch != [] {
      CommittedInOrder(g, batch[..|batch| - 1]);
      IdsInit(batch);
    }
  }

  lemma {:induction false} OtherUnitsStay(g: Graph, batch: seq<Unit>, id: string)
    requires forall i | 0 <= i < |batch| :: batch[i].id != id
    ensures id in CommittedAll(g, batch).units <==> id in g.units
    ensures id in g.units ==> CommittedAll(g, batch).units[id] == g.units[id]
  {
    if batch != [] { OtherUnitsStay(g, batch[..|batch| - 1], id); }
  }

  lemma {:induction false} EachUnitIsStored(g: Graph, batch: seq<Unit>, i: nat)
    requires i < |batch| && forall j, k | 0 <= j < k < |batch| :: batch[j].id != batch[k].id
    ensures batch[i].id in CommittedAll(g, batch).units && CommittedAll(g, batch).units[batch[i].id] == batch[i]
  {
    if i < |batch| - 1 { EachUnitIsStored(g, batch[..|batch| - 1], i); }
  }

  function Siblings(g: Graph, parent: string): seq<string> {
    if parent in g.children then g.children[parent] else []
  }

  lemma {:induction false} SiblingsFollow(g: Graph, batch: seq<Unit>, parent: string)
    requires forall i | 0 <= i < |batch| :: batch[i].parent == Some(parent)
    ensures var after := CommittedAll(g, batch);
      && Siblings(after, parent) == Siblings(g, parent) + IdsInOrder(batch)
      && (parent in after.children <==> parent in g.children || batch != [])
      && after.children - {parent} == g.children - {parent}
  {
    if batch != [] {
      var init, last := batch[..|batch| - 1], batch[|batch| - 1];
      SiblingsFollow(g, init, parent);
      IdsInit(batch);
      var before := CommittedAll(g, init);
      assert last.parent == Some(parent);
      assert Siblings(CommittedAll(g, batch), parent) == Siblings(before, parent) + [last.id];
    }
  }

  /** After an expansion the graph has the children after its other units, in the order they were given,
      each as it was described; below the parent they follow its other children; and nothing else has
      changed. */
  lemma ExpandedExactly(contains: Containment, g: Graph, parent: string, specs: seq<ChildSpec>)
    requires CanExpand(contains, g, parent, specs)
    ensures var from := g.units[parent];
      var children := seq(|specs|, i requires 0 <= i < |specs| => Described(parent, from, specs[i]));
      var after := CommittedAll(g, Prepared(parent, from, specs));
      && after.order == g.order + IdsInOrder(children)
      && (forall id | id in g.units :: id in after.units && after.units[id] == g.units[id])
      && (forall i | 0 <= i < |children| :: children[i].id in after.units && after.units[children[i].id] == children[i])
      && (forall id | id in after.units :: id in g.units || id in IdsInOrder(children))
      && Siblings(after, parent) == Siblings(g, parent) + IdsInOrder(children)
      && (parent in after.children <==> parent in g.children || specs != [])
      && after.children - {parent} == g.children - {parent}
  {
    var batch := Prepared(parent, g.units[parent], specs);
    var children := seq(|specs|, i requires 0 <= i < |specs| => Described(parent, g.units[parent], specs[i]));
    assert children == batch;
    CommittedInOrder(g, batch);
    SiblingsFollow(g, batch, parent);
    forall id | id !in IdsInOrder(batch)
      ensures id in CommittedAll(g, batch).units <==> id in g.units
      ensures id in g.units ==> CommittedAll(g, batch).units[id] == g.units[id]
    {
      forall i | 0 <= i < |batch| ensures batch[i].id != id { assert IdsInOrder(batch)[i] == batch[i].id; }
      OtherUnitsStay(g, batch, id);
    }
    forall i | 0 <= i < |batch|
      ensures batch[i].id in CommittedAll(g, batch).units && CommittedAll(g, batch).units[batch[i].id] == batch[i]
    {
      EachUnitIsStored(g, batch, i);
    }
  }
}
