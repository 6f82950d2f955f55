/** The compiled task graph: validation with its cycle check, incremental growth with
    rollback, and the readiness query. */
module TaskGraphs {
  import opened Common
  import opened Graphs
  import opened States

  datatype Dependency =
    | WhenCompleted(parent: string)
    | WhenExported(parent: string, exports: set<string>)

  datatype Contract = Contract(ref: string, terms: string)

  datatype Task = Task(id: string, runId: string, state: TaskState, contractRef: string, dependencies: seq<Dependency>)

  /** The tables of a graph, apart from the object that holds them. */
  datatype Plan = Plan(
    runId: string,
    order: seq<string>,
    tasks: map<string, Task>,
    contracts: map<string, Contract>,
    dependencies: map<string, seq<Dependency>>)

  /** What a report says of one task: a record with a state and exports, the name of a state, or
      any other value, which reports completion and is read as a list of exports. */
  datatype Fact =
    | Record(state: Option<TaskState>, exports: set<string>)
    | StateName(name: TaskState)
    | Other(exports: set<string>)

  /** The facts a readiness query is given: ids of completed tasks, or a fact for each id. */
  datatype Report =
    | Completions(ids: set<string>)
    | Facts(facts: map<string, Fact>)

  datatype GraphError =
    | WrongOwner | MissingContract | MetadataDisagrees | WrongContractKey
    | MissingParent | SelfDependency | DependencyCycle
    | DuplicateTask | DuplicateContract | MissingTask | DuplicateDependency | ContractDisagrees

  /* --------------------------------------------------------- well-formedness */

  function Parents(dependencies: seq<Dependency>): set<string> {
    set d | d in dependencies :: d.parent
  }

  function EdgesOf(p: Plan): Edges {
    map id | id in p.dependencies :: Parents(p.dependencies[id])
  }

  ghost predicate Keyed(p: Plan) {
    && Members(p.order) == p.tasks.Keys
    && (forall i, j | 0 <= i < j < |p.order| :: p.order[i] != p.order[j])
    && p.dependencies.Keys == p.tasks.Keys
  }

  predicate Owned(p: Plan, id: string)
    requires id in p.tasks
  {
    p.tasks[id].id == id && p.tasks[id].runId == p.runId
  }

  ghost predicate NodesOk(p: Plan) {
    && (forall id | id in p.tasks :: Owned(p, id))
    && (forall id | id in p.tasks :: p.tasks[id].contractRef in p.contracts)
    && (forall id | id in p.tasks :: id in p.dependencies && p.tasks[id].dependencies == p.dependencies[id])
    && (forall ref | ref in p.contracts :: p.contracts[ref].ref == ref)
  }

  ghost predicate ReferencesOk(p: Plan) {
    && (forall id | id in p.dependencies :: Parents(p.dependencies[id]) <= p.tasks.Keys)
    && (forall id | id in p.dependencies :: id !in Parents(p.dependencies[id]))
  }

  /** What a validated graph is: owned nodes, closed references, no self edge, no cycle. */
  ghost predicate WellFormed(p: Plan) {
    Keyed(p) && NodesOk(p) && ReferencesOk(p) && Acyclic(EdgesOf(p))
  }

  /** The validation pass.  It reports a cycle exactly when everything else is in order and the
      dependency relation has one. */
  method Validate(p: Plan) returns (error: Option<GraphError>)
    requires Keyed(p)
    ensures error.None? <==> WellFormed(p)
    ensures error == Some(DependencyCycle) <==> NodesOk(p) && ReferencesOk(p) && !Acyclic(EdgesOf(p))
    ensures NodesOk(p) && !ReferencesOk(p) ==> error in {Some(MissingParent), Some(SelfDependency)}
  {
    for i := 0 to |p.order|
      invariant forall k | 0 <= k < i :: var id := p.order[k];
        && Owned(p, id) && p.tasks[id].contractRef in p.contracts
        && p.tasks[id].dependencies == p.dependencies[id]
    {
      var id := p.order[i];
      if !Owned(p, id) { return Some(WrongOwner); }
      if p.tasks[id].contractRef !in p.contracts { return Some(MissingContract); }
      if p.tasks[id].dependencies != p.dependencies[id] { return Some(MetadataDisagrees); }
    }
    forall id | id in p.tasks
      ensures Owned(p, id) && p.tasks[id].contractRef in p.contracts && p.tasks[id].dependencies == p.dependencies[id]
    {
      var k :| 0 <= k < |p.order| && p.order[k] == id;
    }
    if exists ref | ref in p.contracts :: p.contracts[ref].ref != ref { return Some(WrongContractKey); }
    for i := 0 to |p.order|
      invariant forall k | 0 <= k < i :: var id := p.order[k];
        Parents(p.dependencies[id]) <= p.tasks.Keys && id !in Parents(p.dependencies[id])
    {
      var id := p.order[i];
      if !(Parents(p.dependencies[id]) <= p.tasks.Keys) { return Some(MissingParent); }
      if id in Parents(p.dependencies[id]) { return Some(SelfDependency); }
    }
    forall id | id in p.dependencies
      ensures Parents(p.dependencies[id]) <= p.tasks.Keys && id !in Parents(p.dependencies[id])
    {
      var k :| 0 <= k < |p.order| && p.order[k] == id;
    }
    var cyclic := HasCycle(EdgesOf(p));
    return if cyclic then Some(DependencyCycle) else None;
  }

  /* ------------------------------------------------------------------ growth */

  /** A contract given with a task is the one the task names, and no other contract has its place. */
  predicate ContractAgrees(contracts: map<string, Contract>, task: Task, contract: Option<Contract>) {
    contract.Some? ==>
      && contract.value.ref == task.contractRef
      && (task.contractRef in contracts ==> contracts[task.contractRef] == contract.value)
  }

  /** A task is tried out when it is new, of this run, and agrees with the contracts. */
  predicate IsTried(p: Plan, task: Task, contract: Option<Contract>) {
    task.id !in p.tasks && task.runId == p.runId && ContractAgrees(p.contracts, task, contract)
  }

  /** A task that is tried out fits when it depends only on tasks that are there already. */
  predicate CanAddTask(p: Plan, task: Task, contract: Option<Contract>) {
    IsTried(p, task, contract) && Parents(task.dependencies) <= p.tasks.Keys
  }

  /** An edge fits when it joins two tasks of the graph, is new, and closes no cycle. */
  ghost predicate CanAddEdge(p: Plan, child: string, dependency: Dependency) {
    && child in p.tasks && dependency.parent in p.tasks && dependency.parent != child
    && child in p.dependencies && dependency !in p.dependencies[child]
    && Acyclic(EdgesOf(WithDependency(p, child, dependency)))
  }

  /** The edge is added exactly when it fits; otherwise nothing changes. */
  ghost predicate AddsEdge(before: Plan, after: Plan, child: string, dependency: Dependency, accepted: bool) {
    && (accepted <==> CanAddEdge(before, child, dependency))
    && after == if accepted then WithDependency(before, child, dependency) else before
  }

  ghost predicate UsesContract(p: Plan, ref: string) {
    exists id | id in p.tasks :: p.tasks[id].contractRef == ref
  }

  /** What a refused task leaves: one that was tried out takes its contract with it, unless another task
      uses that; any other leaves everything. */
  ghost function AfterRefusal(p: Plan, task: Task, contract: Option<Contract>): Plan {
    if IsTried(p, task, contract) && !UsesContract(p, task.contractRef)
    then p.(contracts := p.contracts - {task.contractRef})
    else p
  }

  /** A refusal changes nothing exactly when the task is not tried out, its contract was not there before,
      or another task uses that. */
  lemma RefusalIsHarmlessExactly(p: Plan, task: Task, contract: Option<Contract>)
    ensures AfterRefusal(p, task, contract) == p <==>
      !IsTried(p, task, contract) || task.contractRef !in p.contracts || UsesContract(p, task.contractRef)
  {
    var rest := p.contracts - {task.contractRef};
    assert task.contractRef !in rest;
    if task.contractRef !in p.contracts { assert rest == p.contracts; }
  }

  /** A contract compiled without tasks is lost to a task that names it and an absent parent. */
  method RefusalDropsContract(runId: string, contract: Contract, id: string, parent: string)
    returns (graph: TaskGraph, error: Option<GraphError>)
    ensures error.Some? && graph.View() == Plan(runId, [], map[], map[], map[])
  {
    graph := TaskGraph.Of(OneContract(runId, contract));
    error := graph.AddTask(Task(id, runId, Proposed, contract.ref, [WhenCompleted(parent)]), None);
    assert Parents([WhenCompleted(parent)]) == {parent} by { assert WhenCompleted(parent) in [WhenCompleted(parent)]; }
    assert (map[contract.ref := contract]) - {contract.ref} == map[];
  }

  /** A plan of one contract. */
  function OneContract(runId: string, contract: Contract): (p: Plan)
    ensures WellFormed(p)
  {
    Plan(runId, [], map[], map[contract.ref := contract], map[])
  }

  class TaskGraph {
    const runId: string
    var order: seq<string>
    var tasks: map<string, Task>
    var contracts: map<string, Contract>
    var dependencies: map<string, seq<Dependency>>

    function View(): Plan
      reads this
    {
      Plan(runId, order, tasks, contracts, dependencies)
    }

    ghost predicate Valid()
      reads this
    {
      WellFormed(View())
    }

    constructor (runId: string)
      ensures Valid() && View() == Plan(runId, [], map[], map[], map[])
    {
      this.runId := runId;
      order, tasks, contracts, dependencies := [], map[], map[], map[];
      new;
      SortedIsAcyclic(EdgesOf(View()), []);
    }

    /** Compile a whole graph.  Tasks may name parents that come later, so this is where cycles
        arise.  A graph is returned exactly when ids and contract references are distinct and the
        compiled plan is well formed. */
    static method Compile(runId: string, tasks: seq<Task>, contracts: seq<Contract>)
      returns (graph: TaskGraph?, error: Option<GraphError>)
      ensures graph == null <==> error.Some?
      ensures graph != null <==> Distinct(tasks, contracts) && WellFormed(Compiled(runId, tasks, contracts))
      ensures graph != null ==> fresh(graph) && graph.Valid() && graph.View() == Compiled(runId, tasks, contracts)
      ensures error == Some(DependencyCycle) ==> !Acyclic(EdgesOf(Compiled(runId, tasks, contracts)))
    {
      var contractTable, fault := CompileContracts(contracts);
      if fault.Some? { return null, fault; }
      var p;
      p, fault := CompileTasks(runId, tasks, contractTable);
      if fault.Some? { return null, fault; }
      error := Validate(p);
      if error.Some? { return null, error; }
      graph := Of(p);
    }

    /** The graph of a validated plan. */
    static method Of(p: Plan) returns (graph: TaskGraph)
      requires WellFormed(p)
      ensures fresh(graph) && graph.Valid() && graph.View() == p
    {
      graph := new TaskGraph(p.runId);
      graph.order, graph.tasks, graph.contracts, graph.dependencies := p.order, p.tasks, p.contracts, p.dependencies;
    }

    /** Store a task and its contract. */
    method Grow(task: Task, contract: Contract)
      requires Valid() && task.id !in tasks && task.runId == runId && contract.ref == task.contractRef
      requires task.contractRef in contracts ==> contracts[task.contractRef] == contract
      modifies this
      ensures GrowsBy(old(View()), View(), task) && contracts == old(contracts)[task.contractRef := contract]
      ensures Keyed(View()) && NodesOk(View()) && (ReferencesOk(View()) ==> Acyclic(EdgesOf(View())))
    {
      ghost var before := View();
      contracts := contracts[task.contractRef := contract];
      order := order + [task.id];
      tasks := tasks[task.id := task];
      dependencies := dependencies[task.id := task.dependencies];
      ContractIsStored(before.contracts, contracts, task.contractRef, contract);
      GrownIsKeyed(before, View(), task);
      GrownNodesAreOk(before, View(), task);
      GrownFailure(before, View(), task);
    }

    /** Take a stored task back, and its contract if no other task uses it. */
    method TakeBack(task: Task, ghost before: Plan)
      requires WellFormed(before) && GrowsBy(before, View(), task)
      modifies this
      ensures Valid()
      ensures order == before.order && tasks == before.tasks && dependencies == before.dependencies
      ensures contracts == if UsesContract(before, task.contractRef) then before.contracts else before.contracts - {task.contractRef}
    {
      ghost var grown := View();
      order := order[..|order| - 1];
      tasks := tasks - {task.id};
      dependencies := dependencies - {task.id};
      if forall id | id in tasks :: tasks[id].contractRef != task.contractRef {
        contracts := contracts - {task.contractRef};
      }
      RolledBack(before, grown, View(), task);
    }

    /** Add one task with its contract.  A task that is tried out and depends on a task that is not
        there, or on itself, is taken back; its contract stays only if another task uses it, even if it
        was registered before the call.  Any other refusal changes nothing. */
    method AddTask(task: Task, contract: Option<Contract>) returns (error: Option<GraphError>)
      requires Valid()
      modifies this
      ensures Valid()
      ensures error.None? <==> CanAddTask(old(View()), task, contract)
      ensures error.None? ==> GrowsBy(old(View()), View(), task)
      ensures error.None? && contract.Some? ==> contracts == old(contracts)[task.contractRef := contract.value]
      ensures error.Some? ==> View() == AfterRefusal(old(View()), task, contract)
      ensures error in {Some(MissingParent), Some(SelfDependency)} <==>
        IsTried(old(View()), task, contract) && !(Parents(task.dependencies) <= old(tasks).Keys)
      ensures error != Some(DependencyCycle)
    {
      if task.id in tasks { return Some(DuplicateTask); }
      if task.runId != runId { return Some(WrongOwner); }
      if contract.Some? {
        if contract.value.ref != task.contractRef { return Some(ContractDisagrees); }
        if task.contractRef in contracts && contracts[task.contractRef] != contract.value {
          return Some(DuplicateContract);
        }
      }
      var added := if task.contractRef in contracts then contracts[task.contractRef]
        else if contract.Some? then contract.value else Contract(task.contractRef, "");
      ghost var before := View();
      Grow(task, added);
      GrownReferences(before, View(), task);
      error := Validate(View());
      if error.Some? { TakeBack(task, before); }
    }

    /** Add one edge.  A rejected edge leaves the graph exactly as it was; an accepted one is
        appended to the child's dependencies and changes nothing else. */
    method AddDependency(child: string, dependency: Dependency) returns (error: Option<GraphError>)
      requires Valid()
      modifies this
      ensures Valid()
      ensures AddsEdge(old(View()), View(), child, dependency, error.None?)
      ensures tasks.Keys == old(tasks).Keys
    {
      if dependency.parent !in tasks || child !in tasks { return Some(MissingTask); }
      if dependency.parent == child { return Some(SelfDependency); }
      if dependency in dependencies[child] { return Some(DuplicateDependency); }
      ghost var before := View();
      var kept := dependencies[child];
      dependencies := dependencies[child := kept + [dependency]];
      tasks := tasks[child := tasks[child].(dependencies := kept + [dependency])];
      EdgeKeepsRest(before, child, dependency);
      EdgeRollsBack(before, child, dependency);
      error := Validate(View());
      if error.Some? {
        dependencies := dependencies[child := kept];
        tasks := tasks[child := tasks[child].(dependencies := kept)];
        assert View() == before;
      }
    }

    /** Are the task's dependencies satisfied by its parents' states and the reported facts?
        Exports given separately take the place of the reported ones. */
    method DependenciesSatisfied(id: string, report: Report, exports: map<string, set<string>>)
      returns (satisfied: bool)
      requires Valid() && id in tasks
      ensures satisfied <==> NothingIsAwaited(View(), id, report, exports)
    {
      SatisfiedExactly(View(), id, report, exports);
      var completed, reported := ReadReport(report);
      satisfied := DependenciesAreMet(id, completed, reported + exports);
    }

    method DependenciesAreMet(id: string, completed: set<string>, exports: map<string, set<string>>)
      returns (met: bool)
      requires Valid() && id in tasks
      ensures met <==> Satisfied(View(), id, completed, exports)
    {
      var items := dependencies[id];
      for i := 0 to |items|
        invariant forall k | 0 <= k < i :: IsMet(View(), items[k], completed, exports)
      {
        assert items[i].parent in Parents(items);
        match items[i]
        case WhenCompleted(parent) =>
          if parent !in completed && tasks[parent].state != Completed { return false; }
        case WhenExported(parent, names) =>
          if tasks[parent].state !in {Verifying, Completed} && parent !in completed { return false; }
          if parent !in exports || !(names <= exports[parent]) { return false; }
      }
      return true;
    }

    method TaskIsReady(id: string, report: Report) returns (ready: bool)
      requires Valid() && id in tasks
      ensures ready <==> IsReady(View(), id, report)
    {
      if tasks[id].state !in {Proposed, TaskState.Ready} { return false; }
      SatisfiedExactly(View(), id, report, map[]);
      assert ReportedExports(report) + map[] == ReportedExports(report);
      ready := DependenciesSatisfied(id, report, map[]);
    }

    /** The proposed or ready tasks whose dependencies are satisfied, in graph order. */
    method ReadyTasks(report: Report) returns (ready: seq<string>)
      requires Valid()
      ensures forall id :: id in ready <==> id in tasks && MayStart(View(), id, report)
      ensures Members(ready) == ReadySet(View(), report)
      ensures IsSubsequence(ready, order)
    {
      ready := [];
      ghost var picks: seq<nat> := [];
      for i := 0 to |order|
        invariant ReadyUpTo(View(), i, report, ready, picks)
      {
        assert order[i] in Members(order);
        var isReady := TaskIsReady(order[i], report);
        if isReady {
          PickReady(View(), i, report, ready, picks);
          ready := ready + [order[i]];
          picks := picks + [i];
        }
      }
      ReadyToTheEnd(View(), report, ready, picks);
      ReadyListIsExact(View(), report, ready);
    }
  }

  /** The ready tasks among the first `n` of the order, picked in order. */
  ghost predicate ReadyUpTo(p: Plan, n: nat, report: Report, ready: seq<string>, picks: seq<nat>)
    requires Referenced(p) && n <= |p.order|
  {
    && (forall id | id in ready :: id in p.tasks && IsReady(p, id, report))
    && (forall k | 0 <= k < n :: p.order[k] in p.tasks && (IsReady(p, p.order[k], report) ==> p.order[k] in ready))
    && Picks(ready, p.order, picks) && (forall k | 0 <= k < |picks| :: picks[k] < n)
  }

  lemma PickReady(p: Plan, n: nat, report: Report, ready: seq<string>, picks: seq<nat>)
    requires Referenced(p) && n < |p.order| && ReadyUpTo(p, n, report, ready, picks)
    requires p.order[n] in p.tasks && IsReady(p, p.order[n], report)
    ensures ReadyUpTo(p, n + 1, report, ready + [p.order[n]], picks + [n])
  {
  }

  lemma ReadyListIsExact(p: Plan, report: Report, ready: seq<string>)
    requires Referenced(p) && Members(ready) == ReadySet(p, report)
    ensures forall id :: id in ready <==> id in p.tasks && MayStart(p, id, report)
  {
    forall id ensures id in ready <==> id in p.tasks && MayStart(p, id, report) {
      ReadyExactly(p, report, id);
      assert id in ready <==> id in Members(ready);
    }
  }

  lemma ReadyToTheEnd(p: Plan, report: Report, ready: seq<string>, picks: seq<nat>)
    requires Keyed(p) && Referenced(p) && ReadyUpTo(p, |p.order|, report, ready, picks)
    ensures Members(ready) == ReadySet(p, report) && IsSubsequence(ready, p.order)
  {
    forall id | id in p.tasks && IsReady(p, id, report) ensures id in ready {
      assert id in Members(p.order);
      var k :| 0 <= k < |p.order| && p.order[k] == id;
    }
  }

  /** `picks` are increasing positions in `whole` that spell out `part`. */
  ghost predicate Picks(part: seq<string>, whole: seq<string>, picks: seq<nat>) {
    && |picks| == |part|
    && (forall k | 0 <= k < |part| :: picks[k] < |whole| && part[k] == whole[picks[k]])
    && forall j, k | 0 <= j < k < |part| :: picks[j] < picks[k]
  }

  ghost predicate IsSubsequence(part: seq<string>, whole: seq<string>) {
    exists picks :: Picks(part, whole, picks)
  }

  /* ------------------------------------------------------------- compilation */

  function TaskTable(tasks: seq<Task>): map<string, Task> {
    if tasks == [] then map[] else TaskTable(tasks[..|tasks| - 1])[tasks[|tasks| - 1].id := tasks[|tasks| - 1]]
  }

  function DependencyTable(tasks: seq<Task>): map<string, seq<Dependency>> {
    if tasks == [] then map[]
    else DependencyTable(tasks[..|tasks| - 1])[tasks[|tasks| - 1].id := tasks[|tasks| - 1].dependencies]
  }

  function ContractTable(contracts: seq<Contract>): map<string, Contract> {
    if contracts == [] then map[]
    else ContractTable(contracts[..|contracts| - 1])[contracts[|contracts| - 1].ref := contracts[|contracts| - 1]]
  }

  function Ids(tasks: seq<Task>): seq<string> {
    seq(|tasks|, i requires 0 <= i < |tasks| => tasks[i].id)
  }

  function PlanOf(runId: string, tasks: seq<Task>, contracts: map<string, Contract>): Plan {
    Plan(runId, Ids(tasks), TaskTable(tasks), contracts, DependencyTable(tasks))
  }

  function Compiled(runId: string, tasks: seq<Task>, contracts: seq<Contract>): Plan {
    PlanOf(runId, tasks, ContractTable(contracts))
  }

  ghost predicate Distinct(tasks: seq<Task>, contracts: seq<Contract>) {
    && IsDistinct(tasks)
    && (forall i, j | 0 <= i < j < |contracts| :: contracts[i].ref != contracts[j].ref)
  }

  method CompileContracts(contracts: seq<Contract>) returns (table: map<string, Contract>, error: Option<GraphError>)
    ensures error.None? <==> forall j, k | 0 <= j < k < |contracts| :: contracts[j].ref != contracts[k].ref
    ensures error.None? ==> table == ContractTable(contracts)
    ensures error.Some? ==> error == Some(DuplicateContract)
  {
    table := map[];
    for i := 0 to |contracts|
      invariant table == ContractTable(contracts[..i])
      invariant forall j, k | 0 <= j < k < i :: contracts[j].ref != contracts[k].ref
    {
      assert contracts[..i + 1][..i] == contracts[..i];
      ContractTableHolds(contracts[..i]);
      if contracts[i].ref in table { return table, Some(DuplicateContract); }
      table := table[contracts[i].ref := contracts[i]];
    }
    assert contracts[..|contracts|] == contracts;
    return table, None;
  }

  predicate IsDistinct(tasks: seq<Task>) {
    forall j, k | 0 <= j < k < |tasks| :: tasks[j].id != tasks[k].id
  }

  method CompileTasks(runId: string, tasks: seq<Task>, contracts: map<string, Contract>)
    returns (p: Plan, error: Option<GraphError>)
    ensures error.None? ==> IsDistinct(tasks) && p == PlanOf(runId, tasks, contracts) && Keyed(p)
    ensures error.Some? ==> !IsDistinct(tasks) || !NodesOk(PlanOf(runId, tasks, contracts))
    ensures error.Some? ==> error != Some(DependencyCycle)
  {
    p := Plan(runId, [], map[], contracts, map[]);
    for i := 0 to |tasks|
      invariant p == PlanOf(runId, tasks[..i], contracts)
      invariant IsDistinct(tasks[..i])
    {
      var task := tasks[i];
      assert tasks[..i + 1] == tasks[..i] + [task] && tasks[..i + 1][..i] == tasks[..i];
      TaskTableKeys(tasks[..i]);
      if task.id in p.tasks {
        RepeatedId(tasks, i);
        return p, Some(DuplicateTask);
      }
      if task.runId != runId {
        MisplacedTask(runId, tasks, contracts, i);
        return p, Some(WrongOwner);
      }
      if task.contractRef !in contracts {
        MisplacedTask(runId, tasks, contracts, i);
        return p, Some(MissingContract);
      }
      p := p.(order := p.order + [task.id], tasks := p.tasks[task.id := task],
              dependencies := p.dependencies[task.id := task.dependencies]);
    }
    assert tasks[..|tasks|] == tasks;
    CompiledIsKeyed(tasks, p);
    return p, None;
  }

  lemma RepeatedId(tasks: seq<Task>, i: nat)
    requires i < |tasks| && tasks[i].id in (set t | t in tasks[..i] :: t.id)
    ensures !IsDistinct(tasks)
  {
    var t :| t in tasks[..i] && t.id == tasks[i].id;
    var j :| 0 <= j < i && tasks[j] == t;
  }

  lemma MisplacedTask(runId: string, tasks: seq<Task>, contracts: map<string, Contract>, i: nat)
    requires i < |tasks| && (tasks[i].runId != runId || tasks[i].contractRef !in contracts)
    ensures !IsDistinct(tasks) || !NodesOk(PlanOf(runId, tasks, contracts))
  {
    if IsDistinct(tasks) { TaskTableHolds(tasks, i); }
  }

  lemma {:induction false} TaskTableKeys(tasks: seq<Task>)
    ensures TaskTable(tasks).Keys == set t | t in tasks :: t.id
    ensures DependencyTable(tasks).Keys == set t | t in tasks :: t.id
  {
    if tasks != [] {
      var rest, last := tasks[..|tasks| - 1], tasks[|tasks| - 1];
      TaskTableKeys(rest);
      assert tasks == rest + [last];
    }
  }

  lemma {:induction false} TaskTableHolds(tasks: seq<Task>, i: nat)
    requires IsDistinct(tasks) && i < |tasks|
    ensures tasks[i].id in TaskTable(tasks) && TaskTable(tasks)[tasks[i].id] == tasks[i]
  {
    if i < |tasks| - 1 { TaskTableHolds(tasks[..|tasks| - 1], i); }
  }

  lemma {:induction false} ContractTableHolds(contracts: seq<Contract>)
    ensures forall i | 0 <= i < |contracts| :: contracts[i].ref in ContractTable(contracts)
    ensures forall ref | ref in ContractTable(contracts) :: exists i | 0 <= i < |contracts| :: contracts[i].ref == ref
  {
    if contracts != [] {
      var rest := contracts[..|contracts| - 1];
      ContractTableHolds(rest);
      assert forall i | 0 <= i < |rest| :: rest[i] == contracts[i];
    }
  }

  lemma CompiledIsKeyed(tasks: seq<Task>, p: Plan)
    requires p == PlanOf(p.runId, tasks, p.contracts)
    requires IsDistinct(tasks)
    ensures Keyed(p)
  {
    TaskTableKeys(tasks);
    forall t | t in tasks ensures t.id in p.order {
      var i :| 0 <= i < |tasks| && tasks[i] == t;
      assert p.order[i] == t.id;
    }
  }

  /* ------------------------------------------------------------------ rollback */

  function WithDependency(p: Plan, child: string, dependency: Dependency): Plan {
    if child !in p.tasks || child !in p.dependencies then p
    else
      var items := p.dependencies[child] + [dependency];
      p.(dependencies := p.dependencies[child := items],
         tasks := p.tasks[child := p.tasks[child].(dependencies := items)])
  }

  ghost predicate GrowsBy(before: Plan, after: Plan, task: Task) {
    && task.id !in before.tasks
    && after.runId == before.runId
    && after.order == before.order + [task.id]
    && after.tasks == before.tasks[task.id := task]
    && after.dependencies == before.dependencies[task.id := task.dependencies]
    && (after.contracts == before.contracts
        || (task.contractRef !in before.contracts && after.contracts.Keys == before.contracts.Keys + {task.contractRef}
            && after.contracts[task.contractRef].ref == task.contractRef
            && after.contracts - {task.contractRef} == before.contracts))
    && task.contractRef in after.contracts
  }

  /** References stay closed exactly when the new task's parents were there before it. */
  lemma GrownReferences(before: Plan, after: Plan, task: Task)
    requires WellFormed(before) && GrowsBy(before, after, task)
    ensures ReferencesOk(after) <==> Parents(task.dependencies) <= before.tasks.Keys
  {
    assert task.id in after.dependencies && after.dependencies[task.id] == task.dependencies;
    assert after.tasks.Keys == before.tasks.Keys + {task.id};
  }

  lemma ContractIsStored(before: map<string, Contract>, after: map<string, Contract>, ref: string, contract: Contract)
    requires after == before[ref := contract] && contract.ref == ref
    requires ref in before ==> before[ref] == contract
    ensures ref in before ==> after == before
    ensures ref !in before ==> after - {ref} == before
    ensures after.Keys == before.Keys + {ref}
  {
  }

  lemma GrownNodesAreOk(before: Plan, after: Plan, task: Task)
    requires WellFormed(before) && GrowsBy(before, after, task) && task.runId == before.runId
    ensures NodesOk(after)
  {
    forall ref | ref in after.contracts ensures after.contracts[ref].ref == ref {
      assert ref != task.contractRef ==> ref in before.contracts && after.contracts[ref] == (after.contracts - {task.contractRef})[ref];
    }
    assert before.contracts.Keys <= after.contracts.Keys;
  }

  lemma GrownIsKeyed(before: Plan, after: Plan, task: Task)
    requires WellFormed(before) && GrowsBy(before, after, task)
    ensures Keyed(after)
  {
    assert task.id !in before.order;
    assert Members(after.order) == Members(before.order) + {task.id};
  }

  /** A new task brings no cycle: nothing in a closed graph can depend on it yet. */
  lemma NewTaskBringsNoCycle(before: Plan, after: Plan, task: Task, p: seq<string>)
    requires WellFormed(before) && GrowsBy(before, after, task) && ReferencesOk(after)
    ensures !IsCycle(EdgesOf(after), p)
  {
    if IsCycle(EdgesOf(after), p) {
      var edges := EdgesOf(after);
      forall i | 1 <= i < |p| ensures p[i] != task.id {
        assert p[i] in edges[p[i - 1]];
      }
      assert p[0] == p[|p| - 1] != task.id;
      assert IsCycle(EdgesOf(before), p);
    }
  }

  /** Validation can only fail on the new task's own references. */
  lemma GrownFailure(before: Plan, after: Plan, task: Task)
    requires WellFormed(before) && GrowsBy(before, after, task)
    ensures ReferencesOk(after) ==> Acyclic(EdgesOf(after))
  {
    if ReferencesOk(after) {
      forall p ensures !IsCycle(EdgesOf(after), p) { NewTaskBringsNoCycle(before, after, task, p); }
    }
  }

  /** Taking a rejected task back restores every table but, possibly, the contract table. */
  lemma RolledBack(before: Plan, grown: Plan, after: Plan, task: Task)
    requires WellFormed(before) && GrowsBy(before, grown, task)
    requires after.runId == before.runId && after.order == grown.order[..|grown.order| - 1]
    requires after.tasks == grown.tasks - {task.id} && after.dependencies == grown.dependencies - {task.id}
    requires after.contracts == if UsesContract(after, task.contractRef) then grown.contracts else grown.contracts - {task.contractRef}
    ensures after.order == before.order && after.tasks == before.tasks && after.dependencies == before.dependencies
    ensures after.contracts == if UsesContract(before, task.contractRef) then before.contracts else before.contracts - {task.contractRef}
    ensures WellFormed(after)
  {
    RolledBackTables(before, grown, after, task);
    assert UsesContract(after, task.contractRef) <==> UsesContract(before, task.contractRef);
    ContractsAfterRollback(before, grown, task);
    DroppingUnusedContractKeepsWellFormed(before, after, task.contractRef);
  }

  lemma RolledBackTables(before: Plan, grown: Plan, after: Plan, task: Task)
    requires Keyed(before) && GrowsBy(before, grown, task)
    requires after.order == grown.order[..|grown.order| - 1]
    requires after.tasks == grown.tasks - {task.id} && after.dependencies == grown.dependencies - {task.id}
    ensures after.order == before.order && after.tasks == before.tasks && after.dependencies == before.dependencies
  {
  }

  lemma ContractsAfterRollback(before: Plan, grown: Plan, task: Task)
    requires WellFormed(before) && GrowsBy(before, grown, task)
    ensures UsesContract(before, task.contractRef) ==> grown.contracts == before.contracts
    ensures grown.contracts - {task.contractRef} == before.contracts - {task.contractRef}
    ensures before.contracts - {task.contractRef} == before.contracts <==> task.contractRef !in before.contracts
  {
    var rest := before.contracts - {task.contractRef};
    if task.contractRef in before.contracts { assert task.contractRef !in rest; }
    assert grown.contracts - {task.contractRef} == rest;
  }

  lemma DroppingUnusedContractKeepsWellFormed(before: Plan, after: Plan, ref: string)
    requires WellFormed(before)
    requires after.runId == before.runId && after.order == before.order
    requires after.tasks == before.tasks && after.dependencies == before.dependencies
    requires after.contracts == before.contracts || (!UsesContract(before, ref) && after.contracts == before.contracts - {ref})
    ensures WellFormed(after)
  {
    assert EdgesOf(after) == EdgesOf(before);
  }

  lemma EdgeRollsBack(p: Plan, child: string, dependency: Dependency)
    requires WellFormed(p) && child in p.tasks
    ensures var after := WithDependency(p, child, dependency);
      && after.dependencies[child := p.dependencies[child]] == p.dependencies
      && after.tasks[child := after.tasks[child].(dependencies := p.dependencies[child])] == p.tasks
  {
    assert p.tasks[child].dependencies == p.dependencies[child];
  }

  lemma EdgeAddsParent(dependencies: seq<Dependency>, dependency: Dependency)
    ensures Parents(dependencies + [dependency]) == Parents(dependencies) + {dependency.parent}
  {
    assert forall d :: d in dependencies + [dependency] <==> d in dependencies || d == dependency;
  }

  lemma EdgeKeepsReferences(p: Plan, child: string, dependency: Dependency)
    requires ReferencesOk(p) && p.dependencies.Keys == p.tasks.Keys
    requires child in p.tasks && dependency.parent in p.tasks && dependency.parent != child
    ensures ReferencesOk(WithDependency(p, child, dependency))
  {
    EdgeAddsParent(p.dependencies[child], dependency);
    assert WithDependency(p, child, dependency).tasks.Keys == p.tasks.Keys;
  }

  lemma EdgeKeepsNodes(p: Plan, child: string, dependency: Dependency)
    requires NodesOk(p) && p.dependencies.Keys == p.tasks.Keys && child in p.tasks
    ensures NodesOk(WithDependency(p, child, dependency))
  {
  }

  lemma EdgeKeepsRest(p: Plan, child: string, dependency: Dependency)
    requires WellFormed(p) && child in p.tasks && dependency.parent in p.tasks && dependency.parent != child
    ensures var after := WithDependency(p, child, dependency);
      Keyed(after) && NodesOk(after) && ReferencesOk(after)
  {
    EdgeKeepsReferences(p, child, dependency);
    EdgeKeepsNodes(p, child, dependency);
    var after := WithDependency(p, child, dependency);
    assert after.tasks.Keys == p.tasks.Keys && after.dependencies.Keys == p.dependencies.Keys;
  }

  /* --------------------------------------------------------------- readiness */

  /** The part of well-formedness readiness rests on: every parent is a task. */
  ghost predicate Referenced(p: Plan) {
    && p.dependencies.Keys == p.tasks.Keys
    && forall id | id in p.dependencies :: Parents(p.dependencies[id]) <= p.tasks.Keys
  }

  predicate CountsAsCompleted(fact: Fact) {
    match fact
    case Record(state, _) => state in {Some(Completed), Some(Verifying)}
    case StateName(name) => name in {Completed, Verifying}
    case Other(_) => true
  }

  function NamedExports(fact: Fact): set<string> {
    if fact.StateName? then {} else fact.exports
  }

  function CompletedIds(report: Report): set<string> {
    match report
    case Completions(ids) => ids
    case Facts(facts) => set id | id in facts && CountsAsCompleted(facts[id])
  }

  /** Only a fact that names an export reports exports at all. */
  function ReportedExports(report: Report): map<string, set<string>> {
    match report
    case Completions(_) => map[]
    case Facts(facts) => map id | id in facts && NamedExports(facts[id]) != {} :: NamedExports(facts[id])
  }

  /** Read a report fact by fact. */
  method ReadReport(report: Report) returns (completed: set<string>, exports: map<string, set<string>>)
    ensures completed == CompletedIds(report)
    ensures exports == ReportedExports(report)
  {
    if report.Completions? { return report.ids, map[]; }
    completed, exports := {}, map[];
    var todo := report.facts.Keys;
    while todo != {}
      invariant todo <= report.facts.Keys
      invariant completed == CompletedIds(report) - todo
      invariant exports == ReportedExports(report) - todo
    {
      var id :| id in todo;
      var fact := report.facts[id];
      if CountsAsCompleted(fact) { completed := completed + {id}; }
      if NamedExports(fact) != {} { exports := exports[id := NamedExports(fact)]; }
      todo := todo - {id};
    }
  }

  predicate IsMet(p: Plan, d: Dependency, completed: set<string>, exports: map<string, set<string>>)
    requires d.parent in p.tasks
  {
    var state := p.tasks[d.parent].state;
    match d
    case WhenCompleted(parent) => parent in completed || state == Completed
    case WhenExported(parent, names) =>
      (state in {Verifying, Completed} || parent in completed) && parent in exports && names <= exports[parent]
  }

  predicate Satisfied(p: Plan, id: string, completed: set<string>, exports: map<string, set<string>>)
    requires id in p.dependencies && Parents(p.dependencies[id]) <= p.tasks.Keys
  {
    forall d | d in p.dependencies[id] :: d.parent in p.tasks && IsMet(p, d, completed, exports)
  }

  ghost predicate IsReady(p: Plan, id: string, report: Report)
    requires Referenced(p) && id in p.tasks
  {
    && p.tasks[id].state in {Proposed, TaskState.Ready}
    && Satisfied(p, id, CompletedIds(report), ReportedExports(report))
  }

  /* ------------------------------------------ readiness by the plan and the report alone */

  /** The report lists the task, or has a fact for it: a record or the name of the state completed or
      verifying, or anything that is neither a record nor the name of a state. */
  ghost predicate IsReportedDone(report: Report, id: string) {
    match report
    case Completions(ids) => id in ids
    case Facts(facts) =>
      && id in facts
      && (|| facts[id].Other?
          || (facts[id].Record? && (facts[id].state == Some(Completed) || facts[id].state == Some(Verifying)))
          || (facts[id].StateName? && (facts[id].name == Completed || facts[id].name == Verifying)))
  }

  /** The exports given for the task hold the names; or none are given, and a fact that has exports and is
      not the name of a state holds them. */
  ghost predicate IsExporting(report: Report, given: map<string, set<string>>, id: string, names: set<string>) {
    if id in given then names <= given[id]
    else
      && report.Facts? && id in report.facts && (report.facts[id].Record? || report.facts[id].Other?)
      && report.facts[id].exports != {} && names <= report.facts[id].exports
  }

  /** Every parent whose completion the task waits for is reported done or completed, and every parent
      whose exports it waits for has reported them and is done, verifying or completed. */
  ghost predicate NothingIsAwaited(p: Plan, id: string, report: Report, given: map<string, set<string>>)
    requires Referenced(p) && id in p.tasks
  {
    && (forall parent | WhenCompleted(parent) in p.dependencies[id] ::
          parent in p.tasks && (IsReportedDone(report, parent) || p.tasks[parent].state == Completed))
    && (forall parent, names | WhenExported(parent, names) in p.dependencies[id] ::
          && parent in p.tasks && IsExporting(report, given, parent, names)
          && (IsReportedDone(report, parent) || p.tasks[parent].state == Completed || p.tasks[parent].state == Verifying))
  }

  ghost predicate MayStart(p: Plan, id: string, report: Report)
    requires Referenced(p) && id in p.tasks
  {
    && (p.tasks[id].state == Proposed || p.tasks[id].state == TaskState.Ready)
    && NothingIsAwaited(p, id, report, map[])
  }

  lemma MetExactly(p: Plan, d: Dependency, report: Report, given: map<string, set<string>>)
    requires d.parent in p.tasks
    ensures IsReportedDone(report, d.parent) <==> d.parent in CompletedIds(report)
    ensures IsMet(p, d, CompletedIds(report), ReportedExports(report) + given) <==>
      match d
      case WhenCompleted(parent) => IsReportedDone(report, parent) || p.tasks[parent].state == Completed
      case WhenExported(parent, names) =>
        && IsExporting(report, given, parent, names)
        && (IsReportedDone(report, parent) || p.tasks[parent].state == Completed || p.tasks[parent].state == Verifying)
  {
  }

  lemma SatisfiedExactly(p: Plan, id: string, report: Report, given: map<string, set<string>>)
    requires Referenced(p) && id in p.tasks
    ensures Satisfied(p, id, CompletedIds(report), ReportedExports(report) + given) <==> NothingIsAwaited(p, id, report, given)
  {
    forall d | d in p.dependencies[id] ensures d.parent in p.tasks {
      assert d.parent in Parents(p.dependencies[id]);
      MetExactly(p, d, report, given);
    }
    if NothingIsAwaited(p, id, report, given) {
      forall d | d in p.dependencies[id] ensures IsMet(p, d, CompletedIds(report), ReportedExports(report) + given) {
        MetExactly(p, d, report, given);
        match d {
          case WhenCompleted(parent) => assert WhenCompleted(parent) in p.dependencies[id];
          case WhenExported(parent, names) => assert WhenExported(parent, names) in p.dependencies[id];
        }
      }
    }
    if Satisfied(p, id, CompletedIds(report), ReportedExports(report) + given) {
      forall d | d in p.dependencies[id] ensures IsMet(p, d, CompletedIds(report), ReportedExports(report) + given) {
      }
      forall parent | WhenCompleted(parent) in p.dependencies[id]
        ensures IsReportedDone(report, parent) || p.tasks[parent].state == Completed
      {
        MetExactly(p, WhenCompleted(parent), report, given);
      }
      forall parent, names | WhenExported(parent, names) in p.dependencies[id]
        ensures IsExporting(report, given, parent, names)
        ensures IsReportedDone(report, parent) || p.tasks[parent].state == Completed || p.tasks[parent].state == Verifying
      {
        MetExactly(p, WhenExported(parent, names), report, given);
      }
    }
  }

  /** The tasks that are ready are exactly those that may start. */
  lemma ReadyExactly(p: Plan, report: Report, id: string)
    requires Referenced(p)
    ensures id in ReadySet(p, report) <==> id in p.tasks && MayStart(p, id, report)
  {
    if id in p.tasks {
      SatisfiedExactly(p, id, report, map[]);
      assert ReportedExports(report) + map[] == ReportedExports(report);
    }
  }

  ghost function ReadySet(p: Plan, report: Report): set<string>
    requires Referenced(p)
  {
    set id | id in p.tasks && IsReady(p, id, report)
  }

  ghost predicate IsFinished(p: Plan, id: string, completed: set<string>)
    requires id in p.tasks
  {
    id in completed || p.tasks[id].state == Completed
  }

  ghost predicate OnlyCompletionDependencies(p: Plan) {
    forall id, d | id in p.dependencies && d in p.dependencies[id] :: d.WhenCompleted?
  }

  /** Every task that is not finished still waits to be dispatched. */
  ghost predicate Undispatched(p: Plan, completed: set<string>) {
    forall id | id in p.tasks && !IsFinished(p, id, completed) :: p.tasks[id].state in {Proposed, TaskState.Ready}
  }

  /** Every completion and every export told by `fewer` is told by `more`. */
  ghost predicate TellsMore(fewer: Report, more: Report) {
    && CompletedIds(fewer) <= CompletedIds(more)
    && forall id | id in ReportedExports(fewer) ::
         id in ReportedExports(more) && ReportedExports(fewer)[id] <= ReportedExports(more)[id]
  }

  lemma ReadinessIsMonotone(p: Plan, fewer: Report, more: Report)
    requires Referenced(p) && TellsMore(fewer, more)
    ensures ReadySet(p, fewer) <= ReadySet(p, more)
  {
    forall id | id in ReadySet(p, fewer) ensures id in ReadySet(p, more) {
      forall d | d in p.dependencies[id]
        ensures d.parent in p.tasks && IsMet(p, d, CompletedIds(more), ReportedExports(more))
      {
        assert IsMet(p, d, CompletedIds(fewer), ReportedExports(fewer));
      }
    }
  }

  /** No deadlock: while a task is unfinished, some unfinished task is ready. */
  lemma SomeUnfinishedTaskIsReady(p: Plan, completed: set<string>)
    requires Referenced(p) && Acyclic(EdgesOf(p)) && OnlyCompletionDependencies(p) && Undispatched(p, completed)
    requires exists id | id in p.tasks :: !IsFinished(p, id, completed)
    ensures exists id | id in ReadySet(p, Completions(completed)) :: !IsFinished(p, id, completed)
  {
    var unfinished := set id | id in p.tasks && !IsFinished(p, id, completed);
    var some :| some in p.tasks && !IsFinished(p, some, completed);
    assert some in unfinished;
    var id := MinimalNode(EdgesOf(p), unfinished);
    forall d | d in p.dependencies[id] ensures d.parent in p.tasks && IsMet(p, d, completed, map[]) {
      assert d.parent in Parents(p.dependencies[id]);
      assert d.parent in EdgesOf(p)[id];
    }
    assert id in ReadySet(p, Completions(completed));
  }

  /** Complete every ready task, `rounds` times over. */
  ghost function Rounds(p: Plan, rounds: nat): set<string>
    requires Referenced(p)
  {
    if rounds == 0 then set id | id in p.tasks && p.tasks[id].state == Completed
    else Rounds(p, rounds - 1) + ReadySet(p, Completions(Rounds(p, rounds - 1)))
  }

  /** A round finishes at least one more task while one is missing. */
  lemma RoundAdds(p: Plan, done: set<string>)
    requires Referenced(p) && Acyclic(EdgesOf(p)) && OnlyCompletionDependencies(p) && Undispatched(p, {})
    requires done <= p.tasks.Keys && done != p.tasks.Keys
    requires forall id | id in p.tasks && p.tasks[id].state == Completed :: id in done
    ensures |done + ReadySet(p, Completions(done))| > |done|
  {
    var missing :| missing in p.tasks && missing !in done;
    assert !IsFinished(p, missing, done);
    SomeUnfinishedTaskIsReady(p, done);
    var id :| id in ReadySet(p, Completions(done)) && !IsFinished(p, id, done);
    SubsetSize(done + {id}, done + ReadySet(p, Completions(done)));
  }

  lemma RoundStaysInside(p: Plan, done: set<string>)
    requires Referenced(p) && done <= p.tasks.Keys
    ensures done + ReadySet(p, Completions(done)) <= p.tasks.Keys
    ensures done == p.tasks.Keys ==> done + ReadySet(p, Completions(done)) == p.tasks.Keys
  {
  }

  /** At least `rounds` tasks are finished, or all of them are. */
  ghost predicate Progressed(done: set<string>, rounds: nat, all: set<string>) {
    done <= all && (|done| >= rounds || done == all)
  }

  lemma RoundProgresses(p: Plan, rounds: nat, done: set<string>)
    requires Referenced(p) && Acyclic(EdgesOf(p)) && OnlyCompletionDependencies(p) && Undispatched(p, {})
    requires Progressed(done, rounds, p.tasks.Keys)
    requires forall id | id in p.tasks && p.tasks[id].state == Completed :: id in done
    ensures Progressed(done + ReadySet(p, Completions(done)), rounds + 1, p.tasks.Keys)
  {
    RoundStaysInside(p, done);
    if done != p.tasks.Keys { RoundAdds(p, done); }
  }

  lemma NextRoundProgresses(p: Plan, rounds: nat)
    requires Referenced(p) && Acyclic(EdgesOf(p)) && OnlyCompletionDependencies(p) && Undispatched(p, {})
    requires Progressed(Rounds(p, rounds), rounds, p.tasks.Keys)
    ensures Progressed(Rounds(p, rounds + 1), rounds + 1, p.tasks.Keys)
  {
    InitiallyCompletedStay(p, rounds);
    RoundProgresses(p, rounds, Rounds(p, rounds));
  }

  lemma {:induction false} RoundsProgress(p: Plan, rounds: nat)
    requires Referenced(p) && Acyclic(EdgesOf(p)) && OnlyCompletionDependencies(p) && Undispatched(p, {})
    ensures Progressed(Rounds(p, rounds), rounds, p.tasks.Keys)
  {
    if rounds > 0 {
      RoundsProgress(p, rounds - 1);
      NextRoundProgresses(p, rounds - 1);
    }
  }

  /** Safety over rounds: no task is finished before all of its parents, unless it was at the start. */
  lemma {:induction false} NoTaskBeforeItsParents(p: Plan, rounds: nat, id: string, d: Dependency)
    requires Referenced(p) && id in p.tasks && p.tasks[id].state != Completed && d in p.dependencies[id]
    requires id in Rounds(p, rounds)
    ensures rounds > 0 && d.WhenCompleted? && d.parent in Rounds(p, rounds - 1)
  {
    var before := Rounds(p, rounds - 1);
    if id in before {
      NoTaskBeforeItsParents(p, rounds - 1, id, d);
    } else {
      RoundWaits(p, before, id, d);
      InitiallyCompletedStay(p, rounds - 1);
    }
  }

  lemma RoundWaits(p: Plan, done: set<string>, id: string, d: Dependency)
    requires Referenced(p) && id in ReadySet(p, Completions(done)) && d in p.dependencies[id]
    ensures d.parent in p.tasks && d.WhenCompleted? && (d.parent in done || p.tasks[d.parent].state == Completed)
  {
    ReadyExactly(p, Completions(done), id);
    match d {
      case WhenCompleted(parent) => assert WhenCompleted(parent) in p.dependencies[id];
      case WhenExported(parent, names) => assert WhenExported(parent, names) in p.dependencies[id];
    }
  }

  lemma {:induction false} InitiallyCompletedStay(p: Plan, rounds: nat)
    requires Referenced(p)
    ensures forall id | id in p.tasks && p.tasks[id].state == Completed :: id in Rounds(p, rounds)
  {
    if rounds > 0 { InitiallyCompletedStay(p, rounds - 1); }
  }

  /** Completing what is ready finishes all n tasks in at most n rounds. */
  lemma EveryTaskFinishes(p: Plan)
    requires WellFormed(p) && OnlyCompletionDependencies(p) && Undispatched(p, {})
    ensures Rounds(p, |p.tasks|) == p.tasks.Keys
  {
    RoundsProgress(p, |p.tasks|);
    SubsetOfFullSize(Rounds(p, |p.tasks|), p.tasks.Keys);
  }

  lemma SubsetOfFullSize(a: set<string>, b: set<string>)
    requires a <= b
    ensures |a| >= |b| ==> a == b
  {
    if a != b {
      var missing :| missing in b && missing !in a;
      SubsetSize(a + {missing}, b);
    }
  }

  /** A list of completed ids carries no export facts, so under such reports a waiting task can
      ever become ready exactly when all its dependencies are on completion. */
  lemma ReadyOnlyOnCompletionDependencies(p: Plan, id: string)
    requires Referenced(p) && id in p.tasks && p.tasks[id].state in {Proposed, TaskState.Ready}
    ensures (exists ids :: IsReady(p, id, Completions(ids))) <==> forall d | d in p.dependencies[id] :: d.WhenCompleted?
  {
    if forall d | d in p.dependencies[id] :: d.WhenCompleted? {
      assert IsReady(p, id, Completions(Parents(p.dependencies[id])));
    }
  }

  /** A dependency on exports is met exactly by a fact that names them, not by a bare state. */
  lemma ExportsAreMetExactly(p: Plan, d: Dependency, report: Report)
    requires d.WhenExported? && d.parent in p.tasks
    ensures IsMet(p, d, CompletedIds(report), ReportedExports(report)) <==>
      && report.Facts? && d.parent in report.facts
      && (report.facts[d.parent].Record? || report.facts[d.parent].Other?)
      && report.facts[d.parent].exports != {} && d.exports <= report.facts[d.parent].exports
      && (p.tasks[d.parent].state in {Verifying, Completed} || CountsAsCompleted(report.facts[d.parent]))
  {
  }

  function AllExports(dependencies: seq<Dependency>): set<string> {
    set d, name | d in dependencies && d.WhenExported? && name in d.exports :: name
  }

  /** Facts can make every waiting task ready, whatever its dependencies are. */
  lemma FactsMakeAnyWaitingTaskReady(p: Plan, id: string) returns (report: Report)
    requires Referenced(p) && id in p.tasks && p.tasks[id].state in {Proposed, TaskState.Ready}
    ensures report.Facts? && report.facts.Keys == Parents(p.dependencies[id]) && IsReady(p, id, report)
  {
    var names := AllExports(p.dependencies[id]) + {"result"};
    report := Facts(map parent | parent in Parents(p.dependencies[id]) :: Record(Some(Completed), names));
    forall d | d in p.dependencies[id]
      ensures d.parent in p.tasks && IsMet(p, d, CompletedIds(report), ReportedExports(report))
    {
      assert d.parent in report.facts && NamedExports(report.facts[d.parent]) == names;
    }
  }
}
