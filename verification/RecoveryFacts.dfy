/** Which claims a reconciliation keeps, ends and makes, told from the rows it reads. */
module RecoveryFacts {
  import opened Common
  import opened States
  import opened StoreRows
  import opened ResourceClaims
  import opened ResourceRecovery
  import opened ClaimRows

  /** Something in the tables shows the task at work: its state, an attempt that has not ended, an outbox
      row the host has not answered, or a lease. */
  ghost predicate IsTaskAtWork(f: Facts, runId: string, id: string) {
    || (id in f.tasks && f.tasks[id].runId == runId
        && (f.tasks[id].state == Dispatching || f.tasks[id].state == Active
            || f.tasks[id].state == Waiting || f.tasks[id].state == Verifying))
    || (exists k :: k in f.attempts && f.attempts[k].taskId == id && IsUnfinished(f.attempts[k].state))
    || IsUnanswered(f, runId, id)
    || IsLeaseHeld(f, TaskTarget, id)
  }

  ghost predicate IsUnfinished(s: AttemptState) {
    s != Lost && s != AttemptFailed && s != Closed
  }

  ghost predicate IsUnfinishedOfUnit(s: UnitAttemptState) {
    s != UnitAttemptCompleted && s != UnitAttemptFailed && s != UnitAttemptClosed
  }

  /** The same for a work unit. */
  ghost predicate IsUnitAtWork(f: Facts, runId: string, id: string) {
    || (id in f.units && (f.units[id].state == UnitDelegated || f.units[id].state == UnitActive))
    || (exists k :: k in f.unitAttempts && f.unitAttempts[k].unitId == id && IsUnfinishedOfUnit(f.unitAttempts[k].state))
    || IsUnanswered(f, runId, id)
    || IsLeaseHeld(f, UnitTarget, id)
  }

  ghost predicate IsUnanswered(f: Facts, runId: string, id: string) {
    exists k :: k in f.outbox && f.outbox[k].runId == runId && f.outbox[k].targetId == id
      && (f.outbox[k].state == Pending || f.outbox[k].state == Emitted)
  }

  ghost predicate IsLeaseHeld(f: Facts, scope: TargetType, id: string) {
    exists l :: l in f.leases && f.leases[l].scope == scope && f.leases[l].scopeId == id && f.leases[l].state == LeaseActive
  }

  ghost predicate IsAtWork(f: Facts, runId: string, topLevel: bool, id: string) {
    if topLevel then IsTaskAtWork(f, runId, id) else IsUnitAtWork(f, runId, id)
  }

  /** A task of the run, or a work unit of one of its tasks. */
  ghost predicate IsOfRun(f: Facts, runId: string, topLevel: bool, id: string) {
    if topLevel then id in f.tasks && f.tasks[id].runId == runId
    else id in f.units && f.units[id].taskId in f.tasks && f.tasks[f.units[id].taskId].runId == runId
  }

  lemma SupportedExactly(f: Facts, runId: string, topLevel: bool, id: string)
    ensures IsSupported(f, runId, topLevel, id) <==> IsAtWork(f, runId, topLevel, id)
    ensures id in ActiveEntities(f, runId, topLevel) <==> IsOfRun(f, runId, topLevel, id) && IsAtWork(f, runId, topLevel, id)
  {
    AwaitedExactly(f, runId, id);
    LeasedExactly(f, if topLevel then TaskTarget else UnitTarget, id);
    if topLevel { TaskAttemptExactly(f, id); } else { UnitAttemptExactly(f, id); }
  }

  lemma AwaitedExactly(f: Facts, runId: string, id: string)
    ensures AwaitsHost(f, runId, id) <==> IsUnanswered(f, runId, id)
  {
  }

  lemma LeasedExactly(f: Facts, scope: TargetType, id: string)
    ensures IsLeased(f, scope, id) <==> IsLeaseHeld(f, scope, id)
  {
  }

  lemma TaskAttemptExactly(f: Facts, id: string)
    ensures HasLiveAttempt(f, id) <==> exists k :: k in f.attempts && f.attempts[k].taskId == id && IsUnfinished(f.attempts[k].state)
  {
  }

  lemma UnitAttemptExactly(f: Facts, id: string)
    ensures HasLiveUnitAttempt(f, id) <==> exists k ::
      k in f.unitAttempts && f.unitAttempts[k].unitId == id && IsUnfinishedOfUnit(f.unitAttempts[k].state)
  {
  }

  /** After a reconciliation an entity has an active claim of the run exactly when it is of the run and at
      work, and never two. */
  lemma ClaimedExactly(f: Facts, runId: string, before: seq<Claim>, after: seq<Claim>,
                       recoveredTasks: set<string>, recoveredUnits: set<string>, topLevel: bool, id: string)
    requires Reconciled(f, runId, before, after, recoveredTasks, recoveredUnits)
    ensures Holds(after, runId, topLevel, id) <==> IsOfRun(f, runId, topLevel, id) && IsAtWork(f, runId, topLevel, id)
    ensures forall i, j | 0 <= i < j < |after| && IsHeldBy(after[i], runId, topLevel, id) :: !IsHeldBy(after[j], runId, topLevel, id)
  {
    SupportedExactly(f, runId, topLevel, id);
    HeldExactly(after, runId, topLevel, id);
    forall i, j | 0 <= i < j < |after| && IsHeldBy(after[i], runId, topLevel, id) ensures !IsHeldBy(after[j], runId, topLevel, id) {
      assert !Contend(after[i], after[j]);
    }
  }

  /** A claim is ended exactly when it is active, of the run, and its entity is not at work; every other
      row is left as it is. */
  lemma EndedExactly(f: Facts, runId: string, before: seq<Claim>, after: seq<Claim>,
                     recoveredTasks: set<string>, recoveredUnits: set<string>, i: nat)
    requires Reconciled(f, runId, before, after, recoveredTasks, recoveredUnits) && i < |before|
    ensures |before| <= |after|
    ensures var c := before[i];
      after[i] == if c.state == ClaimActive && c.runId == runId && !IsAtWork(f, runId, c.scope == TopLevel, c.entityId)
                  then Claim(c.runId, c.scope, c.entityId, c.slots, ClaimReconciled, Some("recovery-no-active-fact"))
                  else c
  {
    SupportedExactly(f, runId, before[i].scope == TopLevel, before[i].entityId);
    assert after[i] == Settled(f, runId, before)[i];
  }

  /** The rows it adds are active claims of one slot for entities of the run that are at work, a work unit's
      in the lane of its task; and it answers with those that had none. */
  lemma MadeExactly(f: Facts, runId: string, before: seq<Claim>, after: seq<Claim>,
                    recoveredTasks: set<string>, recoveredUnits: set<string>)
    requires Reconciled(f, runId, before, after, recoveredTasks, recoveredUnits)
    ensures forall i | |before| <= i < |after| :: IsMade(f, runId, after[i])
    ensures forall id :: id in recoveredTasks <==>
      IsOfRun(f, runId, true, id) && IsTaskAtWork(f, runId, id) && !Holds(before, runId, true, id)
    ensures forall id :: id in recoveredUnits <==>
      IsOfRun(f, runId, false, id) && IsUnitAtWork(f, runId, id) && !Holds(before, runId, false, id)
  {
    forall i | |before| <= i < |after| ensures IsMade(f, runId, after[i]) {
      var top := IsRecovered(f, runId, true, after[i]);
      SupportedExactly(f, runId, top, after[i].entityId);
    }
    forall topLevel, id
      ensures id in ActiveEntities(f, runId, topLevel) <==> IsOfRun(f, runId, topLevel, id) && IsAtWork(f, runId, topLevel, id)
      ensures HasActive(before, runId, topLevel, id) <==> Holds(before, runId, topLevel, id)
    {
      SupportedExactly(f, runId, topLevel, id);
      HeldExactly(before, runId, topLevel, id);
    }
  }

  ghost predicate IsMade(f: Facts, runId: string, c: Claim) {
    || (&& c == Claim(runId, TopLevel, c.entityId, 1, ClaimActive, None)
        && IsOfRun(f, runId, true, c.entityId) && IsTaskAtWork(f, runId, c.entityId))
    || (&& IsOfRun(f, runId, false, c.entityId) && IsUnitAtWork(f, runId, c.entityId)
        && c == Claim(runId, Lane(f.units[c.entityId].taskId), c.entityId, 1, ClaimActive, None))
  }
}
