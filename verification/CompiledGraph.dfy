/** A task graph with the work graphs of its tasks: compilation of both and the validation pass over
    both. */
module CompiledGraphs {
  import opened Common
  import opened Graphs
  import T = TaskGraphs
  import W = WorkGraphs
  import R = WorkGraphRecords

  /** A work graph as the compiler is given it: the task it says it is for, and its records. */
  datatype Source = Source(taskId: string, records: seq<W.Unit>)

  /** A work graph as the compiled graph keeps it. */
  datatype Lane = Lane(taskId: string, graph: W.WorkGraph)

  datatype GraphError = InTasks(inTasks: T.GraphError) | LaneWithoutTask | LaneOfAnotherTask | InUnits(inUnits: W.GraphError)

  ghost predicate SourceOk(contains: W.Containment, tasks: set<string>, id: string, source: Source) {
    id in tasks && source.taskId == id && R.Acceptable(contains, source.records)
  }

  ghost predicate SourcesOk(contains: W.Containment, tasks: set<string>, sources: map<string, Source>) {
    forall id {:trigger SourceOk(contains, tasks, id, sources[id])} | id in sources :: SourceOk(contains, tasks, id, sources[id])
  }

  ghost predicate LaneOk(contains: W.Containment, lane: Lane)
    reads lane.graph
  {
    lane.graph.Valid() && lane.graph.contains == contains
  }

  /** The lane holds exactly the records it was made from. */
  ghost predicate Holds(lane: Lane, source: Source)
    reads lane.graph
  {
    && lane.taskId == source.taskId
    && lane.graph.units.Keys == R.RecordIds(source.records)
    && forall r | r in source.records :: r.id in lane.graph.units && lane.graph.units[r.id] == r
  }

  /** One lane, for its own task. */
  method CoerceLane(contains: W.Containment, tasks: set<string>, id: string, source: Source)
    returns (lane: Option<Lane>, error: Option<GraphError>)
    ensures lane.Some? <==> error.None?
    ensures lane.Some? <==> SourceOk(contains, tasks, id, source)
    ensures lane.Some? ==> fresh(lane.value.graph) && LaneOk(contains, lane.value) && Holds(lane.value, source)
    ensures error.Some? ==> !error.value.InTasks?
  {
    if id !in tasks { return None, Some(LaneWithoutTask); }
    if source.taskId != id { return None, Some(LaneOfAnotherTask); }
    var graph, failed := R.Coerce(contains, source.records);
    if graph == null { return None, Some(InUnits(failed.value)); }
    return Some(Lane(id, graph)), None;
  }

  method CoerceLanes(contains: W.Containment, tasks: set<string>, sources: map<string, Source>)
    returns (lanes: map<string, Lane>, error: Option<GraphError>)
    ensures error.None? <==> SourcesOk(contains, tasks, sources)
    ensures error.None? ==> lanes.Keys == sources.Keys
    ensures error.None? ==> forall id | id in lanes ::
      fresh(lanes[id].graph) && LaneOk(contains, lanes[id]) && Holds(lanes[id], sources[id])
    ensures error.Some? ==> !error.value.InTasks?
  {
    lanes := map[];
    var todo := sources.Keys;
    while todo != {}
      invariant todo <= sources.Keys && lanes.Keys == sources.Keys - todo
      invariant forall id | id in lanes ::
        fresh(lanes[id].graph) && LaneOk(contains, lanes[id]) && Holds(lanes[id], sources[id])
      invariant forall id {:trigger SourceOk(contains, tasks, id, sources[id])} | id in lanes ::
        SourceOk(contains, tasks, id, sources[id])
    {
      var id :| id in todo;
      var lane, failed := CoerceLane(contains, tasks, id, sources[id]);
      if failed.Some? { return lanes, failed; }
      lanes := lanes[id := lane.value];
      todo := todo - {id};
    }
    return lanes, None;
  }

  /** Does every unit with a parent narrow it? */
  ghost predicate EdgesNarrow(contains: W.Containment, g: W.Graph) {
    forall id | id in g.units && g.units[id].parent.Some? ::
      var p := g.units[id].parent.value;
      p in g.units && p != id && W.Narrows(contains, g.units[p], g.units[id])
  }

  lemma WellFormedEdgesNarrow(contains: W.Containment, g: W.Graph)
    requires W.WellFormed(contains, g)
    ensures EdgesNarrow(contains, g)
  {
    forall id | id in g.units && g.units[id].parent.Some?
      ensures g.units[id].parent.value != id
    {
      assert id in Members(g.order);
      var i :| 0 <= i < |g.order| && g.order[i] == id;
      assert W.UnitOk(contains, g, i);
      W.EdgeNarrows(contains, g, id);
    }
    forall id | id in g.units && g.units[id].parent.Some? { W.EdgeNarrows(contains, g, id); }
  }

  /** The check of every stored edge. */
  method ValidateNarrowing(contains: W.Containment, g: W.Graph) returns (error: Option<W.GraphError>)
    ensures error.None? <==> EdgesNarrow(contains, g)
  {
    var todo := g.units.Keys;
    while todo != {}
      invariant todo <= g.units.Keys
      invariant forall id | id in g.units && id !in todo && g.units[id].parent.Some? ::
        var p := g.units[id].parent.value;
        p in g.units && p != id && W.Narrows(contains, g.units[p], g.units[id])
    {
      var id :| id in todo;
      var unit := g.units[id];
      if unit.parent.Some? {
        var p := unit.parent.value;
        if p !in g.units { return Some(W.MissingParent); }
        if p == id { return Some(W.WrongParent); }
        if !W.Narrows(contains, g.units[p], unit) { return Some(W.NotNarrower); }
      }
      todo := todo - {id};
    }
    return None;
  }

  predicate LanesPlaced(tasks: set<string>, lanes: map<string, Lane>) {
    forall id | id in lanes :: id in tasks && lanes[id].taskId == id
  }

  /** The part of validation about lanes.  Work graphs only change by their own operations, so a stored
      edge never fails: what is checked is that each lane stands under its own task. */
  method ValidateLanes(contains: W.Containment, tasks: set<string>, lanes: map<string, Lane>) returns (error: Option<GraphError>)
    requires forall id | id in lanes :: LaneOk(contains, lanes[id])
    ensures error.None? <==> LanesPlaced(tasks, lanes)
    ensures error.Some? ==> error.value in {LaneWithoutTask, LaneOfAnotherTask}
  {
    var todo := lanes.Keys;
    while todo != {}
      invariant todo <= lanes.Keys
      invariant forall id | id in lanes && id !in todo :: id in tasks && lanes[id].taskId == id
    {
      var id :| id in todo;
      if id !in tasks { return Some(LaneWithoutTask); }
      if lanes[id].taskId != id { return Some(LaneOfAnotherTask); }
      var g := lanes[id].graph;
      var failed := ValidateNarrowing(contains, g.View());
      WellFormedEdgesNarrow(contains, g.View());
      assert failed.None?;
      todo := todo - {id};
    }
    return None;
  }

  class CompiledGraph {
    const contains: W.Containment
    const tasks: T.TaskGraph
    var lanes: map<string, Lane>

    ghost function Lanes(): set<object>
      reads this
    {
      set id | id in lanes :: lanes[id].graph
    }

    ghost predicate LanesHold()
      reads this, tasks, Lanes()
    {
      (forall id | id in lanes :: LaneOk(contains, lanes[id])) && LanesPlaced(tasks.tasks.Keys, lanes)
    }

    ghost predicate Valid()
      reads this, tasks, Lanes()
    {
      tasks.Valid() && LanesHold()
    }

    constructor (contains: W.Containment, tasks: T.TaskGraph, lanes: map<string, Lane>)
      requires tasks.Valid() && (forall id | id in lanes :: LaneOk(contains, lanes[id])) && LanesPlaced(tasks.tasks.Keys, lanes)
      ensures Valid() && this.contains == contains && this.tasks == tasks && this.lanes == lanes
    {
      this.contains, this.tasks, this.lanes := contains, tasks, lanes;
    }

    /** Compile tasks, contracts and work graphs.  A graph is returned exactly when the tasks compile,
        every work graph is for a task of the graph, its own, and its records are acceptable.  Work
        graphs are read before the dependencies are validated. */
    static method Compile(contains: W.Containment, runId: string, tasks: seq<T.Task>, contracts: seq<T.Contract>,
                          sources: map<string, Source>)
      returns (graph: CompiledGraph?, error: Option<GraphError>)
      ensures graph == null <==> error.Some?
      ensures graph != null <==>
        && T.Distinct(tasks, contracts) && T.WellFormed(T.Compiled(runId, tasks, contracts))
        && SourcesOk(contains, T.Compiled(runId, tasks, contracts).tasks.Keys, sources)
      ensures graph != null ==>
        && fresh(graph) && fresh(graph.tasks) && graph.Valid() && graph.contains == contains
        && graph.tasks.View() == T.Compiled(runId, tasks, contracts)
        && graph.lanes.Keys == sources.Keys
      ensures graph != null ==> forall id | id in graph.lanes :: fresh(graph.lanes[id].graph) && Holds(graph.lanes[id], sources[id])
      ensures error == Some(InTasks(T.DependencyCycle)) ==>
        && !Acyclic(T.EdgesOf(T.Compiled(runId, tasks, contracts)))
        && SourcesOk(contains, T.Compiled(runId, tasks, contracts).tasks.Keys, sources)
    {
      var contractTable, fault := T.CompileContracts(contracts);
      if fault.Some? { return null, Some(InTasks(fault.value)); }
      var p;
      p, fault := T.CompileTasks(runId, tasks, contractTable);
      if fault.Some? { return null, Some(InTasks(fault.value)); }
      var lanes;
      lanes, error := CoerceLanes(contains, p.tasks.Keys, sources);
      if error.Some? { return null, error; }
      fault := T.Validate(p);
      if fault.Some? { return null, Some(InTasks(fault.value)); }
      assert LanesPlaced(p.tasks.Keys, lanes) by {
        forall id | id in lanes ensures id in p.tasks.Keys && lanes[id].taskId == id {
          assert SourceOk(contains, p.tasks.Keys, id, sources[id]);
        }
      }
      var nodes := T.TaskGraph.Of(p);
      graph := new CompiledGraph(contains, nodes, lanes);
    }

    /** The whole validation pass.  On tables the two classes keep, it fails exactly on a lane that does
        not stand under its own task. */
    method Validate() returns (error: Option<GraphError>)
      requires T.Keyed(tasks.View()) && forall id | id in lanes :: LaneOk(contains, lanes[id])
      ensures error.None? <==> T.WellFormed(tasks.View()) && LanesPlaced(tasks.tasks.Keys, lanes)
      ensures error.None? <==> Valid()
    {
      var fault := T.Validate(tasks.View());
      if fault.Some? { return Some(InTasks(fault.value)); }
      error := ValidateLanes(contains, tasks.tasks.Keys, lanes);
    }

    /** Validate the lanes again after the tasks have grown: they never stand in the way. */
    method RevalidateLanes() returns (error: Option<GraphError>)
      requires LanesHold()
      ensures error.None?
    {
      error := ValidateLanes(contains, tasks.tasks.Keys, lanes);
    }

    method AddTask(task: T.Task, contract: Option<T.Contract>) returns (error: Option<GraphError>)
      requires Valid()
      modifies tasks
      ensures Valid()
      ensures error.None? <==> T.CanAddTask(old(tasks.View()), task, contract)
      ensures error.None? ==> T.GrowsBy(old(tasks.View()), tasks.View(), task)
      ensures error.Some? ==> tasks.View() == T.AfterRefusal(old(tasks.View()), task, contract)
    {
      ghost var before := tasks.View();
      var fault := tasks.AddTask(task, contract);
      assert fault.None? ==> T.GrowsBy(before, tasks.View(), task);
      if fault.Some? { return Some(InTasks(fault.value)); }
      error := RevalidateLanes();
    }

    /** The edge and what it leaves of the lanes. */
    method PlaceEdge(child: string, dependency: T.Dependency) returns (fault: Option<T.GraphError>)
      requires tasks.Valid() && LanesHold()
      modifies tasks
      ensures tasks.Valid() && LanesHold()
      ensures T.AddsEdge(old(tasks.View()), tasks.View(), child, dependency, fault.None?)
    {
      fault := tasks.AddDependency(child, dependency);
      assert tasks.tasks.Keys == old(tasks.tasks.Keys);
    }

    method AddDependency(child: string, dependency: T.Dependency) returns (error: Option<GraphError>)
      requires Valid()
      modifies tasks
      ensures Valid()
      ensures T.AddsEdge(old(tasks.View()), tasks.View(), child, dependency, error.None?)
    {
      var fault := PlaceEdge(child, dependency);
      if fault.Some? { return Some(InTasks(fault.value)); }
      error := RevalidateLanes();
    }
  }
}
