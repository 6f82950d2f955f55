/** The task and work-unit state machines and the paths through them. */
module States {

  datatype TaskState =
    | Proposed | Ready | Dispatching | Active | Waiting | Verifying
    | Blocked | Completed | Superseded | Cancelled

  datatype UnitState =
    | UnitProposed | UnitReady | UnitDelegated | UnitActive
    | UnitBlocked | UnitCompleted | UnitFailed | UnitCancelled

  predicate TaskEdge(from: TaskState, to: TaskState) {
    match from
    case Proposed => to.Ready? || to.Cancelled?
    case Ready => to.Dispatching? || to.Cancelled?
    case Dispatching => to.Active? || to.Blocked?
    case Active => to.Waiting? || to.Verifying? || to.Blocked? || to.Superseded?
    case Waiting => to.Active? || to.Blocked?
    case Verifying => to.Completed? || to.Blocked?
    case Blocked => to.Ready? || to.Active? || to.Cancelled? || to.Superseded?
    case _ => false
  }

  predicate UnitEdge(from: UnitState, to: UnitState) {
    match from
    case UnitProposed => to.UnitReady? || to.UnitDelegated? || to.UnitActive?
    case UnitReady => to.UnitDelegated? || to.UnitActive?
    case UnitDelegated => to.UnitActive?
    case UnitActive => to.UnitCompleted? || to.UnitBlocked? || to.UnitFailed?
    case UnitBlocked => to.UnitReady? || to.UnitCancelled?
    case UnitFailed => to.UnitReady? || to.UnitCancelled?
    case _ => false
  }

  /** A validated transition: one edge, or a write of the same state. */
  predicate MayMoveTask(from: TaskState, to: TaskState) {
    from == to || TaskEdge(from, to)
  }

  predicate MayMoveUnit(from: UnitState, to: UnitState) {
    from == to || UnitEdge(from, to)
  }

  predicate IsTerminalTask(s: TaskState) {
    s.Completed? || s.Superseded? || s.Cancelled?
  }

  ghost predicate IsWalk<S>(edge: (S, S) -> bool, walk: seq<S>) {
    walk != [] && forall i {:trigger walk[i]} | 1 <= i < |walk| :: edge(walk[i - 1], walk[i])
  }

  /** The second state is reached from the first over edges of the table. */
  ghost predicate Reaches<S(!new)>(edge: (S, S) -> bool, from: S, to: S) {
    exists walk :: IsWalk(edge, walk) && walk[0] == from && walk[|walk| - 1] == to
  }

  lemma WalkReaches<S(!new)>(edge: (S, S) -> bool, walk: seq<S>)
    requires IsWalk(edge, walk)
    ensures Reaches(edge, walk[0], walk[|walk| - 1])
  {
  }

  lemma ReachesIsTransitive<S(!new)>(edge: (S, S) -> bool, a: S, b: S, c: S)
    requires Reaches(edge, a, b) && Reaches(edge, b, c)
    ensures Reaches(edge, a, c)
  {
    var first :| IsWalk(edge, first) && first[0] == a && first[|first| - 1] == b;
    var second :| IsWalk(edge, second) && second[0] == b && second[|second| - 1] == c;
    var walk := first + second[1..];
    forall i | 1 <= i < |walk| ensures edge(walk[i - 1], walk[i]) {
      if i < |first| {
        assert walk[i] == first[i];
      } else {
        assert walk[i] == second[i - |first| + 1] && walk[i - 1] == second[i - |first|];
      }
    }
    assert walk[|walk| - 1] == c;
    WalkReaches(edge, walk);
  }

  /** A terminal task state reaches nothing but itself. */
  lemma TerminalTasksAbsorb(from: TaskState, to: TaskState)
    requires IsTerminalTask(from) && Reaches(TaskEdge, from, to)
    ensures to == from
  {
    var walk :| IsWalk(TaskEdge, walk) && walk[0] == from && walk[|walk| - 1] == to;
    assert |walk| == 1 || !TaskEdge(walk[0], walk[1]);
  }

  /** Which edges there are. */
  lemma TaskEdgesExactly(from: TaskState, to: TaskState)
    ensures TaskEdge(from, to) <==> (from, to) in {
      (Proposed, Ready), (Proposed, Cancelled), (Ready, Dispatching), (Ready, Cancelled), (Dispatching, Active), (Dispatching, Blocked),
      (Active, Waiting), (Active, Verifying), (Active, Blocked), (Active, Superseded), (Waiting, Active), (Waiting, Blocked),
      (Verifying, Completed), (Verifying, Blocked), (Blocked, Ready), (Blocked, Active), (Blocked, Cancelled), (Blocked, Superseded)}
  {
  }

  lemma UnitEdgesExactly(from: UnitState, to: UnitState)
    ensures UnitEdge(from, to) <==> (from, to) in {
      (UnitProposed, UnitReady), (UnitProposed, UnitDelegated), (UnitProposed, UnitActive), (UnitReady, UnitDelegated),
      (UnitReady, UnitActive), (UnitDelegated, UnitActive), (UnitActive, UnitCompleted), (UnitActive, UnitBlocked),
      (UnitActive, UnitFailed), (UnitBlocked, UnitReady), (UnitBlocked, UnitCancelled), (UnitFailed, UnitReady),
      (UnitFailed, UnitCancelled)}
  {
  }

  /** From a task that has not ended every state can be reached but the first, which is never returned to. */
  lemma TasksReachExactly(from: TaskState, to: TaskState)
    ensures Reaches(TaskEdge, from, to) <==> from == to || (!IsTerminalTask(from) && !to.Proposed?)
  {
    if from == to {
      WalkReaches(TaskEdge, [from]);
    } else if IsTerminalTask(from) {
      if Reaches(TaskEdge, from, to) { TerminalTasksAbsorb(from, to); }
    } else if to.Proposed? {
      if walk: seq<TaskState> :| IsWalk(TaskEdge, walk) && walk[0] == from && walk[|walk| - 1] == to {
        assert walk[|walk| - 1].Proposed? && |walk| > 1 && !TaskEdge(walk[|walk| - 2], walk[|walk| - 1]);
      }
    } else {
      BlockedIsReached(from);
      EverythingFromBlocked(to);
      ReachesIsTransitive(TaskEdge, from, Blocked, to);
    }
  }

  lemma BlockedIsReached(from: TaskState)
    requires !IsTerminalTask(from)
    ensures Reaches(TaskEdge, from, Blocked)
  {
    match from
    case Proposed => WalkReaches(TaskEdge, [Proposed, Ready, Dispatching, Blocked]);
    case Ready => WalkReaches(TaskEdge, [Ready, Dispatching, Blocked]);
    case Blocked => WalkReaches(TaskEdge, [Blocked]);
    case _ => WalkReaches(TaskEdge, [from, Blocked]);
  }

  lemma EverythingFromBlocked(to: TaskState)
    requires !to.Proposed?
    ensures Reaches(TaskEdge, Blocked, to)
  {
    match to
    case Dispatching => WalkReaches(TaskEdge, [Blocked, Ready, Dispatching]);
    case Waiting => WalkReaches(TaskEdge, [Blocked, Active, Waiting]);
    case Verifying => WalkReaches(TaskEdge, [Blocked, Active, Verifying]);
    case Completed => WalkReaches(TaskEdge, [Blocked, Active, Verifying, Completed]);
    case Blocked => WalkReaches(TaskEdge, [Blocked]);
    case _ => WalkReaches(TaskEdge, [Blocked, to]);
  }

  /** The same for work units; completed and cancelled ones are at an end, failed ones may be taken up again. */
  lemma UnitsReachExactly(from: UnitState, to: UnitState)
    ensures Reaches(UnitEdge, from, to) <==> from == to || (!from.UnitCompleted? && !from.UnitCancelled? && !to.UnitProposed?)
  {
    if from == to {
      WalkReaches(UnitEdge, [from]);
    } else if from.UnitCompleted? || from.UnitCancelled? || to.UnitProposed? {
      if walk: seq<UnitState> :| IsWalk(UnitEdge, walk) && walk[0] == from && walk[|walk| - 1] == to {
        assert |walk| > 1 && UnitEdge(walk[0], walk[1]) && UnitEdge(walk[|walk| - 2], walk[|walk| - 1]);
      }
    } else {
      ReadyIsReached(from);
      EverythingFromReady(to);
      ReachesIsTransitive(UnitEdge, from, UnitReady, to);
    }
  }

  lemma ReadyIsReached(from: UnitState)
    requires !from.UnitCompleted? && !from.UnitCancelled?
    ensures Reaches(UnitEdge, from, UnitReady)
  {
    match from
    case UnitReady => WalkReaches(UnitEdge, [UnitReady]);
    case UnitDelegated => WalkReaches(UnitEdge, [UnitDelegated, UnitActive, UnitBlocked, UnitReady]);
    case UnitActive => WalkReaches(UnitEdge, [UnitActive, UnitBlocked, UnitReady]);
    case _ => WalkReaches(UnitEdge, [from, UnitReady]);
  }

  lemma EverythingFromReady(to: UnitState)
    requires !to.UnitProposed?
    ensures Reaches(UnitEdge, UnitReady, to)
  {
    match to
    case UnitReady => WalkReaches(UnitEdge, [UnitReady]);
    case UnitDelegated => WalkReaches(UnitEdge, [UnitReady, UnitDelegated]);
    case UnitActive => WalkReaches(UnitEdge, [UnitReady, UnitActive]);
    case UnitCancelled => WalkReaches(UnitEdge, [UnitReady, UnitActive, UnitBlocked, UnitCancelled]);
    case _ => WalkReaches(UnitEdge, [UnitReady, UnitActive, to]);
  }

  lemma MovedTaskReaches(from: TaskState, to: TaskState)
    requires MayMoveTask(from, to)
    ensures Reaches(TaskEdge, from, to)
  {
    WalkReaches(TaskEdge, if from == to then [from] else [from, to]);
  }

  lemma MovedUnitReaches(from: UnitState, to: UnitState)
    requires MayMoveUnit(from, to)
    ensures Reaches(UnitEdge, from, to)
  {
    WalkReaches(UnitEdge, if from == to then [from] else [from, to]);
  }
}
