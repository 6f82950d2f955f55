/** The dispatch side of the store: each operation, step by step over the table fields, computes
    exactly the transition of the tables it stands for, and so inherits what every run keeps. */
module DispatchStore {
  import opened Common
  import opened States
  import opened StoreRows
  import opened ResourceObservation
  import opened ResourceClaims
  import opened Dispatch
  import opened DispatchRuns
  import opened DispatchOutcomes

  class StoreDispatch {
    var tasks: map<string, TaskRow>
    var units: map<string, UnitRow>
    var attempts: map<string, Attempt>
    var unitAttempts: map<string, UnitAttempt>
    var outbox: map<string, OutboxRow>
    var receipts: map<string, Receipt>
    var receiptIndex: map<(string, string), string>
    var claims: seq<Claim>
    var signals: seq<Signal>

    ghost function View(): Tables
      reads this
    {
      Tables(tasks, units, attempts, unitAttempts, outbox, receipts, receiptIndex, claims, signals)
    }

    ghost predicate Valid()
      reads this
    {
      Sound(View())
    }

    /** Open a store on existing tables. */
    constructor (t: Tables)
      requires Sound(t)
      ensures Valid() && View() == t
    {
      tasks, units, attempts, unitAttempts, outbox := t.tasks, t.units, t.attempts, t.unitAttempts, t.outbox;
      receipts, receiptIndex, claims, signals := t.receipts, t.receiptIndex, t.claims, t.signals;
    }

    /** A proposed task is made ready, with a signal, before it is dispatched. */
    method PromoteAndDispatch(taskId: string)
      requires taskId in tasks
      modifies `tasks, `signals
      ensures tasks == old(tasks)[taskId := old(tasks)[taskId].(state := Dispatching)]
      ensures signals == old(signals) + Promoted(old(tasks)[taskId], taskId)
    {
      var task := tasks[taskId];
      if task.state.Proposed? {
        tasks := tasks[taskId := task.(state := Ready)];
        signals := signals + [Signal(task.runId, taskId, TaskReadySignal)];
      }
      tasks := tasks[taskId := tasks[taskId].(state := Dispatching)];
    }

    /** The rows of a new attempt of a task that may be dispatched. */
    method InsertAttempt(taskId: string, key: string, attemptId: string, thread: Option<string>)
      requires taskId in tasks
      modifies `tasks, `attempts, `outbox, `signals
      ensures View() == Inserted(old(View()), taskId, key, attemptId, thread)
    {
      var no := NextNumber(taskId);
      PromoteAndDispatch(taskId);
      AddIntent(tasks[taskId].runId, key, Attempt(attemptId, taskId, no, Dispatched, thread, None, None, None));
    }

    method NextNumber(taskId: string) returns (no: nat)
      ensures no == Largest(Numbers(TaskSlots(attempts), taskId)) + 1
    {
      var latest := FindLargest(Numbers(TaskSlots(attempts), taskId));
      no := latest + 1;
    }

    method AddIntent(runId: string, key: string, a: Attempt)
      modifies `attempts, `outbox, `signals
      ensures attempts == old(attempts)[key := a]
      ensures outbox == old(outbox)[key := OutboxRow(runId, TaskTarget, a.taskId, a.id, Pending, 0)]
      ensures signals == old(signals) + [Signal(runId, a.taskId, LaneDispatchIntent)]
    {
      attempts := attempts[key := a];
      outbox := outbox[key := OutboxRow(runId, TaskTarget, a.taskId, a.id, Pending, 0)];
      signals := signals + [Signal(runId, a.taskId, LaneDispatchIntent)];
    }

    /** The attempt a key already has, or the reason there is to be none; success without an attempt
        when a new one may be inserted. */
    method CheckIntent(taskId: string, key: string, attemptId: string) returns (result: Result<Option<Attempt>, Refusal>)
      ensures result.Failure? <==> IntentRefusal(View(), taskId, key, attemptId).Some?
      ensures result.Failure? ==> result.error == IntentRefusal(View(), taskId, key, attemptId).value
      ensures result.Success? ==> result.value == (if key in attempts then Some(attempts[key]) else None)
    {
      if taskId == "" || key == "" {
        return Failure(MissingIdentity);
      }
      if taskId !in tasks {
        return Failure(UnknownTask);
      }
      if key in attempts {
        if attempts[key].taskId != taskId {
          return Failure(KeyOwnedElsewhere);
        }
        return Success(Some(attempts[key]));
      }
      if tasks[taskId].state !in {Proposed, Ready, Dispatching} {
        return Failure(NotDispatchable);
      }
      if exists k | k in attempts :: attempts[k].id == attemptId {
        return Failure(AttemptIdTaken);
      }
      if key in outbox {
        return Failure(OutboxKeyTaken);
      }
      result := Success(None);
    }

    method PersistDispatchIntent(taskId: string, key: string, attemptId: string, thread: Option<string>)
      returns (result: Result<Attempt, Refusal>)
      requires Valid()
      modifies this
      ensures Valid() && View() == Intend(old(View()), taskId, key, attemptId, thread)
      ensures result.Failure? <==> IntentRefusal(old(View()), taskId, key, attemptId).Some?
      ensures result.Failure? ==> result.error == IntentRefusal(old(View()), taskId, key, attemptId).value
      ensures result.Success? ==> key in attempts && result.value == attempts[key] && result.value.taskId == taskId
    {
      IntendKeepsSound(View(), taskId, key, attemptId, thread);
      var checked := CheckIntent(taskId, key, attemptId);
      match checked {
        case Failure(refusal) => result := Failure(refusal);
        case Success(Some(existing)) => result := Success(existing);
        case Success(None) =>
          InsertAttempt(taskId, key, attemptId, thread);
          result := Success(attempts[key]);
      }
    }

    method InsertUnitAttempt(unitId: string, key: string, attemptId: string)
      requires key !in unitAttempts && BeginRefusal(View(), unitId, key, attemptId).None?
      modifies `unitAttempts
      ensures View() == BeginUnit(old(View()), unitId, key, attemptId) && key in unitAttempts
    {
      var latest := FindLargest(Numbers(UnitSlots(unitAttempts), unitId));
      unitAttempts := unitAttempts[key := UnitAttempt(attemptId, unitId, latest + 1, UnitAttemptCreated, None, None, None)];
    }

    method CheckBegin(unitId: string, key: string, attemptId: string) returns (refusal: Option<Refusal>)
      ensures refusal == BeginRefusal(View(), unitId, key, attemptId)
    {
      if key in unitAttempts { return None; }
      if unitId !in units { return Some(UnknownUnit); }
      if exists k | k in unitAttempts :: unitAttempts[k].id == attemptId { return Some(AttemptIdTaken); }
      refusal := None;
    }

    /** The attempt of a work unit that a key stands for, begun if there is none. */
    method BeginUnitAttempt(unitId: string, key: string, attemptId: string) returns (result: Result<UnitAttempt, Refusal>)
      requires Valid()
      modifies this
      ensures Valid() && View() == BeginUnit(old(View()), unitId, key, attemptId)
      ensures result.Failure? <==> BeginRefusal(old(View()), unitId, key, attemptId).Some?
      ensures result.Success? ==> key in unitAttempts && result.value == unitAttempts[key]
    {
      BeginUnitKeepsSound(View(), unitId, key, attemptId);
      var refusal := CheckBegin(unitId, key, attemptId);
      if refusal.Some? { return Failure(refusal.value); }
      if key !in unitAttempts { InsertUnitAttempt(unitId, key, attemptId); }
      result := Success(unitAttempts[key]);
    }

    method PersistWorkUnitDispatchIntent(unitId: string, key: string, attemptId: string)
      returns (refusal: Option<Refusal>)
      requires Valid()
      modifies this
      ensures Valid() && View() == IntendUnit(old(View()), unitId, key, attemptId)
      ensures refusal == UnitIntentRefusal(old(View()), unitId, key, attemptId)
    {
      IntendUnitKeepsSound(View(), unitId, key, attemptId);
      if unitId == "" || key == "" {
        return Some(MissingIdentity);
      }
      if unitId !in units || units[unitId].taskId !in tasks {
        return Some(UnknownTask);
      }
      if key in unitAttempts {
        if unitAttempts[key].unitId != unitId {
          return Some(KeyOwnedElsewhere);
        }
      } else if !(exists k | k in unitAttempts :: unitAttempts[k].id == attemptId && unitAttempts[k].unitId == unitId) {
        return Some(NoAttempt);
      }
      if key !in outbox {
        var runId := tasks[units[unitId].taskId].runId;
        outbox := outbox[key := OutboxRow(runId, UnitTarget, unitId, attemptId, Pending, 0)];
        signals := signals + [Signal(runId, unitId, WorkUnitDelegated)];
      }
      refusal := None;
    }

    method Emit(key: string)
      modifies `outbox
      ensures View() == MarkEmitted(old(View()), key)
    {
      if key in outbox && (outbox[key].state.Pending? || outbox[key].state.Emitted?) {
        outbox := outbox[key := outbox[key].(state := Emitted, emitCount := outbox[key].emitCount + 1)];
      }
    }

    method MarkOutboxEmitted(key: string) returns (row: Option<OutboxRow>)
      requires Valid()
      modifies this
      ensures Valid() && View() == MarkEmitted(old(View()), key)
      ensures row == if key in outbox then Some(outbox[key]) else None
    {
      EmitKeepsSound(View(), key);
      Emit(key);
      row := if key in outbox then Some(outbox[key]) else None;
    }

    method WriteTaskState(taskId: string, state: TaskState, signal: Option<string>)
      requires taskId in tasks && MayMoveTask(tasks[taskId].state, state)
      modifies `tasks, `claims, `signals
      ensures View() == SetTask(old(View()), taskId, state, signal)
    {
      var runId := tasks[taskId].runId;
      tasks := tasks[taskId := tasks[taskId].(state := state)];
      if state in {Blocked, Completed, Superseded, Cancelled} {
        claims := Released(claims, runId, true, taskId, None, TaskReason(state), ClaimReleased);
      }
      if IsGiven(signal) {
        signals := signals + [Signal(runId, taskId, Custom(signal.value))];
      }
    }

    method UpdateTaskStatus(taskId: string, state: TaskState, signal: Option<string>) returns (done: bool)
      requires Valid()
      modifies this
      ensures Valid() && View() == SetTask(old(View()), taskId, state, signal)
      ensures done <==> old(taskId in tasks && MayMoveTask(tasks[taskId].state, state))
    {
      SetTaskKeepsSound(View(), taskId, state, signal);
      if taskId !in tasks || !MayMoveTask(tasks[taskId].state, state) {
        return false;
      }
      WriteTaskState(taskId, state, signal);
      done := true;
    }

    method WriteUnitState(unitId: string, state: UnitState, signal: Option<string>)
      requires unitId in units && MayMoveUnit(units[unitId].state, state)
      modifies `units, `claims, `signals
      ensures View() == SetUnit(old(View()), unitId, state, signal)
    {
      units := units[unitId := units[unitId].(state := state)];
      if units[unitId].taskId in tasks {
        var runId := tasks[units[unitId].taskId].runId;
        if state in {UnitBlocked, UnitCompleted, UnitFailed, UnitCancelled} {
          claims := Released(claims, runId, false, unitId, None, UnitReason(state), ClaimReleased);
        }
        if IsGiven(signal) {
          signals := signals + [Signal(runId, unitId, Custom(signal.value))];
        }
      }
    }

    method UpdateWorkUnitStatus(unitId: string, state: UnitState, signal: Option<string>) returns (done: bool)
      requires Valid()
      modifies this
      ensures Valid() && View() == SetUnit(old(View()), unitId, state, signal)
      ensures done <==> old(unitId in units && MayMoveUnit(units[unitId].state, state))
    {
      SetUnitKeepsSound(View(), unitId, state, signal);
      if unitId !in units || !MayMoveUnit(units[unitId].state, state) {
        return false;
      }
      WriteUnitState(unitId, state, signal);
      done := true;
    }

    /** Write the receipt row; nothing when the row already there makes no progress. */
    method StoreReceipt(r: Incoming, at: int) returns (stored: Option<(string, Receipt)>, repliedId: string, repliedRow: Receipt)
      modifies `receipts, `receiptIndex
      ensures stored == old(StoredReceipt(View(), r, at))
      ensures (repliedId, repliedRow) == old(RepliedReceipt(View(), r, at))
      ensures View() == if stored.Some? then WithReceipt(old(View()), stored.value.0, stored.value.1) else old(View())
    {
      var found := None;
      if r.id in receipts {
        found := Some(r.id);
      } else if IsGiven(r.key) && (r.adapter, r.key.value) in receiptIndex {
        found := Some(receiptIndex[(r.adapter, r.key.value)]);
      }
      var id, row;
      if found.None? {
        if r.key.Some? && (r.adapter, r.key.value) in receiptIndex {
          return None, r.id, InsertedReceipt(r, at);
        }
        id, row := r.id, InsertedReceipt(r, at);
      } else {
        id := found.value;
        if id !in receipts {
          return None, r.id, InsertedReceipt(r, at);
        }
        if !MakesProgress(receipts[id], r) {
          return None, id, receipts[id];
        }
        row := UpdatedReceipt(receipts[id], r, at);
      }
      receipts := receipts[id := row];
      if row.key.Some? {
        receiptIndex := receiptIndex[(row.adapter, row.key.value) := id];
      }
      stored, repliedId, repliedRow := Some((id, row)), id, row;
    }

    method Acknowledge(key: string)
      modifies `outbox
      ensures outbox == AcknowledgedOutbox(old(outbox), key)
    {
      if key in outbox && (outbox[key].state.Pending? || outbox[key].state.Emitted?) {
        outbox := outbox[key := outbox[key].(state := OutboxAcknowledged)];
      }
    }

    /** The task of an attempt that moved follows it, with a signal. */
    method FollowAttempt(taskId: string, next: AttemptState)
      requires taskId in tasks
      modifies `tasks, `signals
      ensures tasks == old(tasks)[taskId := old(tasks)[taskId].(state := AdvancedTaskState(old(tasks)[taskId].state, next))]
      ensures signals == old(signals) + AttemptSignals(next, old(tasks)[taskId].runId, taskId)
    {
      var task := tasks[taskId];
      if next.AttemptActive? {
        if task.state in {Dispatching, Ready, Proposed} {
          tasks := tasks[taskId := task.(state := Active)];
        }
        signals := signals + [Signal(task.runId, taskId, LaneAck)];
      } else if next.HandoffReady? {
        if task.state in {Dispatching, Active, Waiting} {
          tasks := tasks[taskId := task.(state := Verifying)];
        }
        signals := signals + [Signal(task.runId, taskId, LaneHandoff)];
      }
    }

    method MoveAttempt(key: string, status: string, id: string, thread: Option<string>, at: int)
      requires key in attempts
      modifies this
      ensures View() == AdvanceAttempt(old(View()), key, NextAttemptState(status, old(attempts[key].state)), id, thread, at)
      ensures old(key in outbox && attempts[key].taskId in tasks) ==> AttemptEffect(old(View()), View(), key, status, id, thread, at)
    {
      if key in outbox && attempts[key].taskId in tasks { AdvanceHasEffect(View(), key, status, id, thread, at); }
      var a := attempts[key];
      var next := NextAttemptState(status, a.state);
      attempts := attempts[key := AdvancedAttempt(a, next, id, thread, at)];
      if a.taskId in tasks {
        if next in {Closed, AttemptFailed, Lost} {
          claims := Released(claims, tasks[a.taskId].runId, true, a.taskId, None, AttemptReason(next), ClaimReleased);
        }
        FollowAttempt(a.taskId, next);
      }
      Acknowledge(key);
    }

    method MoveUnitAttempt(key: string, status: string, id: string, at: int)
      requires key in unitAttempts
      modifies this
      ensures var next := NextUnitAttemptState(status, old(unitAttempts[key].state));
        View() == AdvanceUnitAttempt(old(View()), key, next, NextUnitState(status, next), id, at)
      ensures old(unitAttempts[key].unitId in units) ==> UnitAttemptEffect(old(View()), View(), key, status, id, at)
    {
      if unitAttempts[key].unitId in units { AdvanceUnitHasEffect(View(), key, status, id, at); }
      WriteUnitAttempt(key, status, id, at);
    }

    method WriteUnitAttempt(key: string, status: string, id: string, at: int)
      requires key in unitAttempts
      modifies this
      ensures var next := NextUnitAttemptState(status, old(unitAttempts[key].state));
        View() == AdvanceUnitAttempt(old(View()), key, next, NextUnitState(status, next), id, at)
    {
      var a := unitAttempts[key];
      var next := NextUnitAttemptState(status, a.state);
      var asked := NextUnitState(status, next);
      unitAttempts := unitAttempts[key := AdvancedUnitAttempt(a, next, id, at)];
      if a.unitId in units {
        if asked.Some? && units[a.unitId].state in {UnitProposed, UnitReady, UnitDelegated, UnitActive} {
          units := units[a.unitId := units[a.unitId].(state := asked.value)];
        }
        if next.UnitAttemptActive? && units[a.unitId].taskId in tasks {
          signals := signals + [Signal(tasks[units[a.unitId].taskId].runId, a.unitId, WorkUnitPulse)];
        }
      }
      Acknowledge(key);
    }

    method IngestReceipt(r: Incoming, now: int) returns (reply: Reply)
      requires Valid()
      modifies this
      ensures Valid() && View() == Ingest(old(View()), r, now)
      ensures reply == ReplyOf(old(View()), r, now)
    {
      IngestKeepsSound(View(), r, now);
      var at := if r.receivedAt.Some? then r.receivedAt.value else now;
      var stored, repliedId, repliedRow := StoreReceipt(r, at);
      reply := ReplyTo(attempts, unitAttempts, repliedId, repliedRow, r);
      if stored.Some? {
        var (id, row) := stored.value;
        var key := Either(row.key, r.key);
        if IsGiven(key) {
          if key.value in attempts {
            MoveAttempt(key.value, row.status, id, Either(r.threadId, row.threadId), at);
          } else if key.value in unitAttempts {
            MoveUnitAttempt(key.value, row.status, id, at);
          }
        }
      }
    }
  }
}
