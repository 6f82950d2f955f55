/** What compiling a plan stores, what a new edge changes, and which tasks fit, in full. */
module Plans {
  import opened Common
  import opened TaskGraphs

  /** Every task stands in the plan at its place, with its own dependencies. */
  ghost predicate HoldsTasks(p: Plan, tasks: seq<Task>) {
    && |p.order| == |tasks|
    && (forall i | 0 <= i < |tasks| ::
          && p.order[i] == tasks[i].id
          && tasks[i].id in p.tasks && p.tasks[tasks[i].id] == tasks[i]
          && tasks[i].id in p.dependencies && p.dependencies[tasks[i].id] == tasks[i].dependencies)
    && (forall id | id in p.tasks || id in p.dependencies :: IsIdOf(tasks, id))
  }

  ghost predicate HoldsContracts(p: Plan, contracts: seq<Contract>) {
    && (forall i | 0 <= i < |contracts| :: contracts[i].ref in p.contracts && p.contracts[contracts[i].ref] == contracts[i])
    && (forall ref | ref in p.contracts :: IsRefOf(contracts, ref))
  }

  ghost predicate IsIdOf(tasks: seq<Task>, id: string) {
    exists i :: 0 <= i < |tasks| && tasks[i].id == id
  }

  lemma IdOfOneMore(tasks: seq<Task>, id: string)
    requires tasks != []
    ensures IsIdOf(tasks, id) <==> IsIdOf(tasks[..|tasks| - 1], id) || id == tasks[|tasks| - 1].id
  {
    var init := tasks[..|tasks| - 1];
    if IsIdOf(init, id) {
      var i :| 0 <= i < |init| && init[i].id == id;
      assert tasks[i].id == id;
    }
    if IsIdOf(tasks, id) && id != tasks[|tasks| - 1].id {
      var i :| 0 <= i < |tasks| && tasks[i].id == id;
      assert init[i].id == id;
    }
    if id == tasks[|tasks| - 1].id { assert tasks[|tasks| - 1].id == id; }
  }

  lemma {:induction false} TaskTableHolds(tasks: seq<Task>)
    requires forall i, j | 0 <= i < j < |tasks| :: tasks[i].id != tasks[j].id
    ensures forall i | 0 <= i < |tasks| :: tasks[i].id in TaskTable(tasks) && TaskTable(tasks)[tasks[i].id] == tasks[i]
    ensures forall id :: id in TaskTable(tasks) <==> IsIdOf(tasks, id)
    decreases |tasks|
  {
    if tasks != [] {
      TaskTableHolds(tasks[..|tasks| - 1]);
      forall id ensures id in TaskTable(tasks) <==> IsIdOf(tasks, id) { IdOfOneMore(tasks, id); }
    }
  }

  lemma {:induction false} DependencyTableHolds(tasks: seq<Task>)
    requires forall i, j | 0 <= i < j < |tasks| :: tasks[i].id != tasks[j].id
    ensures forall i | 0 <= i < |tasks| ::
      tasks[i].id in DependencyTable(tasks) && DependencyTable(tasks)[tasks[i].id] == tasks[i].dependencies
    ensures forall id :: id in DependencyTable(tasks) <==> IsIdOf(tasks, id)
    decreases |tasks|
  {
    if tasks != [] {
      DependencyTableHolds(tasks[..|tasks| - 1]);
      forall id ensures id in DependencyTable(tasks) <==> IsIdOf(tasks, id) { IdOfOneMore(tasks, id); }
    }
  }

  ghost predicate IsRefOf(contracts: seq<Contract>, ref: string) {
    exists i :: 0 <= i < |contracts| && contracts[i].ref == ref
  }

  lemma RefOfOneMore(contracts: seq<Contract>, ref: string)
    requires contracts != []
    ensures IsRefOf(contracts, ref) <==> IsRefOf(contracts[..|contracts| - 1], ref) || ref == contracts[|contracts| - 1].ref
  {
    var init := contracts[..|contracts| - 1];
    if IsRefOf(init, ref) {
      var i :| 0 <= i < |init| && init[i].ref == ref;
      assert contracts[i].ref == ref;
    }
    if IsRefOf(contracts, ref) && ref != contracts[|contracts| - 1].ref {
      var i :| 0 <= i < |contracts| && contracts[i].ref == ref;
      assert init[i].ref == ref;
    }
    if ref == contracts[|contracts| - 1].ref { assert contracts[|contracts| - 1].ref == ref; }
  }

  lemma {:induction false} ContractTableHolds(contracts: seq<Contract>)
    requires forall i, j | 0 <= i < j < |contracts| :: contracts[i].ref != contracts[j].ref
    ensures forall i | 0 <= i < |contracts| ::
      contracts[i].ref in ContractTable(contracts) && ContractTable(contracts)[contracts[i].ref] == contracts[i]
    ensures forall ref :: ref in ContractTable(contracts) <==> IsRefOf(contracts, ref)
    decreases |contracts|
  {
    if contracts != [] {
      ContractTableHolds(contracts[..|contracts| - 1]);
      forall ref ensures ref in ContractTable(contracts) <==> IsRefOf(contracts, ref) { RefOfOneMore(contracts, ref); }
    }
  }

  /** A compiled plan is of its run and holds exactly the tasks, in their order, and the contracts. */
  lemma CompiledExactly(runId: string, tasks: seq<Task>, contracts: seq<Contract>)
    requires Distinct(tasks, contracts)
    ensures var p := Compiled(runId, tasks, contracts);
      p.runId == runId && HoldsTasks(p, tasks) && HoldsContracts(p, contracts)
  {
    TaskTableHolds(tasks);
    DependencyTableHolds(tasks);
    ContractTableHolds(contracts);
  }

  /** A new edge is appended to its child's dependencies, in the table and in the task; every other row
      stays. */
  lemma EdgeIsAppended(p: Plan, child: string, dependency: Dependency)
    requires child in p.tasks && child in p.dependencies
    ensures var after := WithDependency(p, child, dependency);
      var task, items := p.tasks[child], p.dependencies[child] + [dependency];
      after == Plan(p.runId, p.order,
                    p.tasks[child := Task(task.id, task.runId, task.state, task.contractRef, items)],
                    p.contracts, p.dependencies[child := items])
  {
  }

  /** A task fits exactly when its id is new, it is of this run, its contract is its own and the one
      registered under that reference if there is one, and all its parents are there. */
  lemma TaskFitsExactly(p: Plan, task: Task, contract: Option<Contract>)
    ensures CanAddTask(p, task, contract) <==>
      && task.id !in p.tasks && task.runId == p.runId
      && (contract.None? || (contract.value.ref == task.contractRef
            && (task.contractRef in p.contracts ==> p.contracts[task.contractRef] == contract.value)))
      && (forall i | 0 <= i < |task.dependencies| :: task.dependencies[i].parent in p.tasks)
  {
    if Parents(task.dependencies) <= p.tasks.Keys {
      forall i | 0 <= i < |task.dependencies| ensures task.dependencies[i].parent in p.tasks {
        assert task.dependencies[i] in task.dependencies;
        assert task.dependencies[i].parent in Parents(task.dependencies);
      }
    }
  }
}
