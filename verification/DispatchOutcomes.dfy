/** What receipts and status updates bring about, across attempts, tasks, claims and the outbox. */
module DispatchOutcomes {
  import opened Common
  import opened States
  import opened StoreRows
  import opened ResourceObservation
  import opened ResourceClaims
  import opened Dispatch
  import opened DispatchRuns
  import opened StatusWords
  import opened ReceiptStatuses
  import opened ClaimRows

  /** A receipt for which no row is found is answered as its own, whether it is stored or not.  It is
      dropped, and nothing changes, exactly when its dispatch key is the empty string and the adapter
      already has a receipt under that key. */
  lemma UnfoundIsDroppedExactly(t: Tables, r: Incoming, now: int)
    requires ReceiptsOk(t.receipts, t.receiptIndex) && FindReceipt(t, r).None?
    ensures ReplyOf(t, r, now).receiptId == r.id && ReplyOf(t, r, now).status == r.status
    ensures var dropped := r.key == Some("") && (r.adapter, "") in t.receiptIndex;
      && (r.id in Ingest(t, r, now).receipts <==> !dropped)
      && (dropped ==> Ingest(t, r, now) == t)
  {
    var at := if r.receivedAt.Some? then r.receivedAt.value else now;
    if StoredReceipt(t, r, at).Some? {
      var row := InsertedReceipt(r, at);
      AdvanceKeepsReceipts(WithReceipt(t, r.id, row), r.id, row, r, at);
    }
  }

  /** A second receipt of an adapter with an empty key is answered and lost. */
  lemma EmptyKeyIsDropped(t: Tables, first: string, r: Incoming, now: int)
    requires ReceiptsOk(t.receipts, t.receiptIndex) && r.key == Some("")
    requires first in t.receipts && t.receipts[first].adapter == r.adapter && t.receipts[first].key == Some("")
    requires r.id !in t.receipts
    ensures Ingest(t, r, now) == t && r.id !in Ingest(t, r, now).receipts && ReplyOf(t, r, now).receiptId == r.id
  {
    UnfoundIsDroppedExactly(t, r, now);
  }

  /** The attempts of both kinds are still there, under their keys and ids. */
  ghost predicate SameAttemptIds(a: Tables, b: Tables) {
    && a.attempts.Keys == b.attempts.Keys && a.unitAttempts.Keys == b.unitAttempts.Keys
    && (forall k | k in a.attempts :: b.attempts[k].id == a.attempts[k].id)
    && (forall k | k in a.unitAttempts :: b.unitAttempts[k].id == a.unitAttempts[k].id)
  }

  lemma AttemptKeepsIds(t: Tables, key: string, next: AttemptState, id: string, thread: Option<string>, at: int)
    requires key in t.attempts
    ensures SameAttemptIds(t, AdvanceAttempt(t, key, next, id, thread, at))
  {
    AdvanceAttemptTouches(t, key, next, id, thread, at);
    AttemptKeepsReceipts(t, key, next, id, thread, at);
  }

  lemma UnitAttemptKeepsIds(t: Tables, key: string, next: UnitAttemptState, asked: Option<UnitState>, id: string, at: int)
    requires key in t.unitAttempts
    ensures SameAttemptIds(t, AdvanceUnitAttempt(t, key, next, asked, id, at))
  {
    UnitAttemptKeepsRest(t, key, next, asked, id, at);
  }

  lemma AdvanceKeepsIds(t: Tables, id: string, row: Receipt, r: Incoming, at: int)
    ensures SameAttemptIds(t, Advance(t, id, row, r, at))
  {
    var key := EffectiveKey(row, r);
    if IsGiven(key) && key.value in t.attempts {
      AttemptKeepsIds(t, key.value, NextAttemptState(row.status, t.attempts[key.value].state), id, Either(r.threadId, row.threadId), at);
    } else if IsGiven(key) && key.value in t.unitAttempts {
      var next := NextUnitAttemptState(row.status, t.unitAttempts[key.value].state);
      UnitAttemptKeepsIds(t, key.value, next, NextUnitState(row.status, next), id, at);
    }
  }

  lemma RepliedAgain(t: Tables, id: string, row: Receipt, r: Incoming, at: int, again: int)
    requires ReceiptsOk(t.receipts, t.receiptIndex) && StoredReceipt(t, r, at) == Some((id, row))
    ensures RepliedReceipt(WithReceipt(t, id, row), r, again) == (id, row)
  {
    SecondIngestionFindsNothingToDo(t, r, at, again);
    assert FindReceipt(WithReceipt(t, id, row), r) == Some(id);
  }

  /** Repeating a receipt repeats the answer. */
  lemma RepeatedReceiptIsAnsweredAlike(t: Tables, r: Incoming, now: int, later: int)
    requires ReceiptsOk(t.receipts, t.receiptIndex)
    ensures ReplyOf(Ingest(t, r, now), r, later) == ReplyOf(t, r, now)
  {
    var at := if r.receivedAt.Some? then r.receivedAt.value else now;
    var stored := StoredReceipt(t, r, at);
    if stored.Some? {
      RepliedAgain(t, stored.value.0, stored.value.1, r, at, if r.receivedAt.Some? then r.receivedAt.value else later);
      AdvancedIsAnsweredAlike(WithReceipt(t, stored.value.0, stored.value.1), stored.value.0, stored.value.1, r, at, later);
    }
  }

  lemma AdvancedIsAnsweredAlike(t: Tables, id: string, row: Receipt, r: Incoming, at: int, later: int)
    ensures ReplyOf(Advance(t, id, row, r, at), r, later) == ReplyOf(t, r, later)
  {
    AdvanceKeepsReceipts(t, id, row, r, at);
    AdvanceKeepsIds(t, id, row, r, at);
    var again := if r.receivedAt.Some? then r.receivedAt.value else later;
    RepliesDependOnReceipts(t, Advance(t, id, row, r, at), r, again);
  }

  lemma RepliesDependOnReceipts(t: Tables, after: Tables, r: Incoming, at: int)
    requires after.receipts == t.receipts && after.receiptIndex == t.receiptIndex
    ensures RepliedReceipt(after, r, at) == RepliedReceipt(t, r, at)
  {
  }

  /* ------------------------------------------------------------- the stored receipt */

  /** A receipt for a row that is there is stored exactly when its status is progress, or it brings the
      first resolved evidence or the first thread id; the row then takes its status and time, and a thread
      id if it carries one, and keeps its key and adapter.  No other row changes. */
  lemma KnownReceiptIsStoredExactly(t: Tables, r: Incoming, now: int, id: string)
    requires ReceiptsOk(t.receipts, t.receiptIndex) && FindReceipt(t, r) == Some(id)
    ensures id in t.receipts
    ensures var at := if r.receivedAt.Some? then r.receivedAt.value else now;
      var row, after := t.receipts[id], Ingest(t, r, now);
      var progress := (SaysPending(row.status) && !SaysPending(r.status)) || (SaysActive(row.status) && SaysEnded(r.status));
      && StoredReceipt(t, r, at).Some? == (progress || BringsEvidence(row, r) || BringsThread(row, r))
      && (StoredReceipt(t, r, at).None? ==> after == t)
      && (StoredReceipt(t, r, at).Some? ==>
            StoredReceipt(t, r, at).value.0 == id &&
            var stored := StoredReceipt(t, r, at).value.1;
            && after.receipts == t.receipts[id := stored]
            && stored.status == r.status && stored.receivedAt == at && stored.key == row.key && stored.adapter == row.adapter
            && stored.threadId == (if r.threadId.Some? then r.threadId else row.threadId)
            && stored.evidence.isResolved == (row.evidence.isResolved || BringsEvidence(row, r)))
  {
    ProgressExactly(t.receipts[id].status, r.status);
    IngestLeavesStored(t, r, now);
    ObservedEvidenceIsOk(r.observation);
    MergedEvidenceIsOk(t.receipts[id].evidence, EvidenceOf(Normalize(r.observation)));
  }

  /** A receipt for which no row is found is stored as it came, unless it is dropped. */
  lemma NewReceiptIsStoredExactly(t: Tables, r: Incoming, now: int)
    requires ReceiptsOk(t.receipts, t.receiptIndex) && FindReceipt(t, r).None? && !(r.key == Some("") && (r.adapter, "") in t.receiptIndex)
    ensures var at := if r.receivedAt.Some? then r.receivedAt.value else now;
      var evidence := EvidenceOf(Normalize(r.observation));
      var row := Receipt(r.key, r.adapter, r.status, r.threadId, evidence, at);
      && StoredReceipt(t, r, at) == Some((r.id, row))
      && Ingest(t, r, now).receipts == t.receipts[r.id := row]
      && Ingest(t, r, now).receiptIndex == (if r.key.Some? then t.receiptIndex[(r.adapter, r.key.value) := r.id] else t.receiptIndex)
  {
    IngestLeavesStored(t, r, now);
    var at := if r.receivedAt.Some? then r.receivedAt.value else now;
    AdvanceKeepsReceipts(WithReceipt(t, r.id, InsertedReceipt(r, at)), r.id, InsertedReceipt(r, at), r, at);
  }

  lemma IngestLeavesStored(t: Tables, r: Incoming, now: int)
    requires ReceiptsOk(t.receipts, t.receiptIndex)
    ensures var at := if r.receivedAt.Some? then r.receivedAt.value else now;
      var stored := StoredReceipt(t, r, at);
      Ingest(t, r, now).receipts == if stored.Some? then t.receipts[stored.value.0 := stored.value.1] else t.receipts
  {
    var at := if r.receivedAt.Some? then r.receivedAt.value else now;
    var stored := StoredReceipt(t, r, at);
    if stored.Some? {
      AdvanceKeepsReceipts(WithReceipt(t, stored.value.0, stored.value.1), stored.value.0, stored.value.1, r, at);
    }
  }

  /** A receipt whose id is new finds the row of its adapter and key, if its key is not empty. */
  lemma ReceiptIsFoundExactly(t: Tables, r: Incoming)
    requires ReceiptsOk(t.receipts, t.receiptIndex)
    ensures r.id in t.receipts ==> FindReceipt(t, r) == Some(r.id)
    ensures r.id !in t.receipts && FindReceipt(t, r).Some? ==>
      FindReceipt(t, r).value in t.receipts && r.key != Some("")
      && t.receipts[FindReceipt(t, r).value].adapter == r.adapter && t.receipts[FindReceipt(t, r).value].key == r.key && r.key.Some?
    ensures FindReceipt(t, r).None? ==>
      r.id !in t.receipts
      && forall id | id in t.receipts && t.receipts[id].adapter == r.adapter && t.receipts[id].key.Some? ::
           t.receipts[id].key == r.key ==> r.key == Some("")
  {
  }

  /** The answer names the row the receipt stands for, as it is stored afterwards, the key it works on, and
      the attempt of that key: a task's before a work unit's, and none for an empty key. */
  lemma ReceiptIsAnsweredExactly(t: Tables, r: Incoming, now: int)
    requires ReceiptsOk(t.receipts, t.receiptIndex)
    ensures var reply, after, found := ReplyOf(t, r, now), Ingest(t, r, now).receipts, FindReceipt(t, r);
      && reply.receiptId == (if found.Some? then found.value else r.id)
      && (reply.receiptId in after ==>
            var row := after[reply.receiptId];
            && reply.key == (if row.key.Some? && row.key.value != "" then row.key else r.key)
            && reply.status == if row.status == "" then r.status else row.status)
    ensures var reply := ReplyOf(t, r, now);
      if reply.key.None? || reply.key.value == "" then reply.attemptId.None? && reply.target.None?
      else if reply.key.value in t.attempts then
        reply.attemptId == Some(t.attempts[reply.key.value].id) && reply.target == Some(TaskTarget)
      else if reply.key.value in t.unitAttempts then
        reply.attemptId == Some(t.unitAttempts[reply.key.value].id) && reply.target == Some(UnitTarget)
      else reply.attemptId.None? && reply.target.None?
  {
    IngestLeavesStored(t, r, now);
  }

  /* --------------------------------------------------------------- attempts of tasks */

  /** The attempt after a receipt: the same attempt, in the state the status asks for, pointing to the
      receipt, with the thread and the start it had or else the receipt's, and an end exactly if it ended. */
  ghost predicate AttemptRowFollows(before: Attempt, after: Attempt, status: string, receiptId: string, thread: Option<string>, at: int) {
    && after.id == before.id && after.taskId == before.taskId && after.attemptNo == before.attemptNo
    && AttemptStateFollows(status, before.state, after.state)
    && after.receiptId == Some(receiptId)
    && after.threadId == (if before.threadId.Some? then before.threadId else thread)
    && after.startedAt == (if before.startedAt.Some? then before.startedAt
                           else if after.state.AttemptActive? || after.state.HandoffReady? || after.state.Closed? then Some(at)
                           else None)
    && after.endedAt == (if after.state.HandoffReady? || after.state.Closed? || after.state.AttemptFailed? || after.state.Lost?
                         then Some(at) else None)
  }

  /** A task that waits for its attempt is active with it and verifies its hand-off. */
  ghost predicate TaskRowFollows(before: TaskRow, after: TaskRow, attempt: AttemptState) {
    && after.runId == before.runId
    && after.state == if attempt.AttemptActive? && (before.state.Proposed? || before.state.Ready? || before.state.Dispatching?) then Active
                      else if attempt.HandoffReady? && (before.state.Dispatching? || before.state.Active? || before.state.Waiting?)
                      then Verifying
                      else before.state
  }

  ghost predicate OutboxRowFollows(before: OutboxRow, after: OutboxRow) {
    && after.runId == before.runId && after.targetType == before.targetType && after.targetId == before.targetId
    && after.attemptId == before.attemptId && after.emitCount == before.emitCount
    && after.state == if before.state.Pending? || before.state.Emitted? then OutboxAcknowledged else before.state
  }

  /** The claim of a task is given back when its attempt ends without a hand-off. */
  ghost predicate ClaimsFollow(before: seq<Claim>, after: seq<Claim>, runId: string, taskId: string, attempt: AttemptState) {
    && (attempt.Closed? ==> GivenBack(before, after, runId, true, taskId, None, "attempt-closed"))
    && (attempt.Lost? ==> GivenBack(before, after, runId, true, taskId, None, "attempt-lost"))
    && (attempt.AttemptFailed? ==> GivenBack(before, after, runId, true, taskId, None, "attempt-failed"))
    && (!attempt.Closed? && !attempt.Lost? && !attempt.AttemptFailed? ==> after == before)
  }

  ghost predicate SignalsFollow(before: seq<Signal>, after: seq<Signal>, runId: string, taskId: string, attempt: AttemptState) {
    after == before + if attempt.AttemptActive? then [Signal(runId, taskId, LaneAck)]
                      else if attempt.HandoffReady? then [Signal(runId, taskId, LaneHandoff)] else []
  }

  lemma AdvancedRowFollows(t: Tables, key: string, status: string, id: string, thread: Option<string>, at: int)
    requires key in t.attempts
    ensures AttemptRowFollows(t.attempts[key],
                              AdvancedAttempt(t.attempts[key], NextAttemptState(status, t.attempts[key].state), id, thread, at),
                              status, id, thread, at)
  {
    NextStateFollows(status, t.attempts[key].state);
  }

  lemma AdvanceLeavesClaims(t: Tables, key: string, next: AttemptState, id: string, thread: Option<string>, at: int)
    requires key in t.attempts && t.attempts[key].taskId in t.tasks
    ensures var after := AdvanceAttempt(t, key, next, id, thread, at);
      var task := t.attempts[key].taskId;
      && ClaimsFollow(t.claims, after.claims, t.tasks[task].runId, task, next)
      && SignalsFollow(t.signals, after.signals, t.tasks[task].runId, task, next)
  {
    var task := t.attempts[key].taskId;
    ReleasedRowsExactly(t.claims, t.tasks[task].runId, true, task, None, AttemptReason(next));
  }

  /** What a receipt with this status does to the tables by way of the attempt: it writes its own row, its
      task's row, the outbox row of its key, the claims of the task and the signals, and nothing else. */
  ghost predicate AttemptEffect(t: Tables, after: Tables, key: string, status: string, id: string, thread: Option<string>, at: int)
    requires key in t.attempts && key in t.outbox && t.attempts[key].taskId in t.tasks
  {
    var task := t.attempts[key].taskId;
    && key in after.attempts && task in after.tasks && key in after.outbox
    && after.attempts == t.attempts[key := after.attempts[key]]
    && after.tasks == t.tasks[task := after.tasks[task]]
    && after.outbox == t.outbox[key := after.outbox[key]]
    && after.units == t.units && after.unitAttempts == t.unitAttempts
    && AttemptRowFollows(t.attempts[key], after.attempts[key], status, id, thread, at)
    && TaskRowFollows(t.tasks[task], after.tasks[task], after.attempts[key].state)
    && OutboxRowFollows(t.outbox[key], after.outbox[key])
    && ClaimsFollow(t.claims, after.claims, t.tasks[task].runId, task, after.attempts[key].state)
    && SignalsFollow(t.signals, after.signals, t.tasks[task].runId, task, after.attempts[key].state)
  }

  lemma AdvanceHasEffect(t: Tables, key: string, status: string, id: string, thread: Option<string>, at: int)
    requires key in t.attempts && key in t.outbox && t.attempts[key].taskId in t.tasks
    ensures AttemptEffect(t, AdvanceAttempt(t, key, NextAttemptState(status, t.attempts[key].state), id, thread, at),
                          key, status, id, thread, at)
  {
    var next := NextAttemptState(status, t.attempts[key].state);
    AdvancedRowFollows(t, key, status, id, thread, at);
    AdvanceLeavesClaims(t, key, next, id, thread, at);
    AttemptKeepsReceipts(t, key, next, id, thread, at);
    AdvanceAttemptTouches(t, key, next, id, thread, at);
  }

  /** The key the receipt works on: the stored row's, or its own where the row has none. */
  ghost predicate WorksOn(row: Receipt, r: Incoming, key: string) {
    && key != ""
    && (row.key == Some(key) || ((row.key.None? || row.key == Some("")) && r.key == Some(key)))
  }

  /** A receipt that is stored and names a task attempt has exactly the effect its status asks for, with
      the thread of the stored row and the time it was received. */
  lemma ReceiptOutcome(t: Tables, r: Incoming, now: int, at: int, id: string, key: string)
    requires Sound(t) && at == (if r.receivedAt.Some? then r.receivedAt.value else now)
    requires StoredReceipt(t, r, at).Some? && StoredReceipt(t, r, at).value.0 == id
    requires WorksOn(StoredReceipt(t, r, at).value.1, r, key) && key in t.attempts
    ensures key in t.outbox && t.attempts[key].taskId in t.tasks
    ensures var after := Ingest(t, r, now);
      && id in after.receipts && after.receipts == t.receipts[id := after.receipts[id]]
      && AttemptEffect(t, after, key, r.status, id, after.receipts[id].threadId, at)
  {
    var row := StoredReceipt(t, r, at).value.1;
    AttemptIsPaired(t, key);
    StoredThenAdvanced(t, r, now, at, id, row);
    StoredOutcome(t, WithReceipt(t, id, row), id, row, r, key, at);
  }

  lemma AttemptIsPaired(t: Tables, key: string)
    requires Sound(t) && key in t.attempts
    ensures key in t.outbox && t.attempts[key].taskId in t.tasks
  {
    assert AttemptOk(t.tasks, t.outbox, key, t.attempts[key]);
  }

  lemma StoredThenAdvanced(t: Tables, r: Incoming, now: int, at: int, id: string, row: Receipt)
    requires ReceiptsOk(t.receipts, t.receiptIndex) && at == (if r.receivedAt.Some? then r.receivedAt.value else now)
    requires StoredReceipt(t, r, at) == Some((id, row))
    ensures Ingest(t, r, now) == Advance(WithReceipt(t, id, row), id, row, r, at)
    ensures Ingest(t, r, now).receipts == t.receipts[id := row]
    ensures row.status == r.status && (IsGiven(r.threadId) ==> row.threadId == r.threadId)
  {
    IngestLeavesStored(t, r, now);
  }

  lemma StoredOutcome(before: Tables, t: Tables, id: string, row: Receipt, r: Incoming, key: string, at: int)
    requires t == before.(receipts := t.receipts, receiptIndex := t.receiptIndex)
    requires WorksOn(row, r, key) && key in t.attempts && key in t.outbox && t.attempts[key].taskId in t.tasks
    requires IsGiven(r.threadId) ==> row.threadId == r.threadId
    ensures AttemptEffect(before, Advance(t, id, row, r, at), key, row.status, id, row.threadId, at)
  {
    AdvanceHasEffect(t, key, row.status, id, row.threadId, at);
    assert Either(r.threadId, row.threadId) == row.threadId;
  }

  /* --------------------------------------------------------- attempts of work units */

  ghost predicate UnitAttemptRowFollows(before: UnitAttempt, after: UnitAttempt, status: string, receiptId: string, at: int) {
    && after.id == before.id && after.unitId == before.unitId && after.attemptNo == before.attemptNo
    && UnitAttemptStateFollows(status, before.state, after.state)
    && after.receiptId == Some(receiptId)
    && after.startedAt == (if before.startedAt.Some? then before.startedAt
                           else if after.state.UnitAttemptActive? || after.state.UnitAttemptClosed? then Some(at) else None)
    && after.endedAt == (if before.endedAt.Some? then before.endedAt
                         else if after.state.UnitAttemptClosed? || after.state.UnitAttemptFailed? then Some(at) else None)
  }

  ghost predicate UnitSignalsFollow(t: Tables, before: seq<Signal>, after: seq<Signal>, unitId: string, attempt: UnitAttemptState)
    requires unitId in t.units
  {
    var lane := t.units[unitId].taskId;
    after == before + if attempt.UnitAttemptActive? && lane in t.tasks then [Signal(t.tasks[lane].runId, unitId, WorkUnitPulse)] else []
  }

  /** What a receipt with this status does by way of a unit's attempt: it writes the attempt's row, the
      unit's row, the outbox row of the key if there is one, and the signals, and nothing else; no claim
      is given back. */
  ghost predicate UnitAttemptEffect(t: Tables, after: Tables, key: string, status: string, id: string, at: int)
    requires key in t.unitAttempts && t.unitAttempts[key].unitId in t.units
  {
    var unit := t.unitAttempts[key].unitId;
    && key in after.unitAttempts && unit in after.units && (key in t.outbox <==> key in after.outbox)
    && after.unitAttempts == t.unitAttempts[key := after.unitAttempts[key]]
    && after.units == t.units[unit := after.units[unit]]
    && after.outbox == (if key in after.outbox then t.outbox[key := after.outbox[key]] else t.outbox)
    && after.tasks == t.tasks && after.attempts == t.attempts && after.claims == t.claims
    && UnitAttemptRowFollows(t.unitAttempts[key], after.unitAttempts[key], status, id, at)
    && after.units[unit].taskId == t.units[unit].taskId
    && UnitStateFollows(status, after.unitAttempts[key].state, t.units[unit].state, after.units[unit].state)
    && (key in t.outbox ==> OutboxRowFollows(t.outbox[key], after.outbox[key]))
    && UnitSignalsFollow(t, t.signals, after.signals, unit, after.unitAttempts[key].state)
  }

  lemma UnitRowAfterAdvance(t: Tables, key: string, next: UnitAttemptState, asked: Option<UnitState>, id: string, at: int)
    requires key in t.unitAttempts && t.unitAttempts[key].unitId in t.units
    ensures var unit := t.unitAttempts[key].unitId;
      var after := AdvanceUnitAttempt(t, key, next, asked, id, at);
      && after.units == t.units[unit := t.units[unit].(state := AdvancedUnitState(t.units[unit].state, asked))]
      && UnitSignalsFollow(t, t.signals, after.signals, unit, next)
  {
  }

  lemma AdvancedUnitRowFollows(a: UnitAttempt, status: string, id: string, at: int)
    ensures UnitAttemptRowFollows(a, AdvancedUnitAttempt(a, NextUnitAttemptState(status, a.state), id, at), status, id, at)
  {
    NextUnitAttemptStateFollows(status, a.state);
  }

  lemma AdvanceUnitHasEffect(t: Tables, key: string, status: string, id: string, at: int)
    requires key in t.unitAttempts && t.unitAttempts[key].unitId in t.units
    ensures var next := NextUnitAttemptState(status, t.unitAttempts[key].state);
      UnitAttemptEffect(t, AdvanceUnitAttempt(t, key, next, NextUnitState(status, next), id, at), key, status, id, at)
  {
    var a := t.unitAttempts[key];
    var next := NextUnitAttemptState(status, a.state);
    AdvancedUnitRowFollows(a, status, id, at);
    AskedUnitStateFollows(status, next, t.units[a.unitId].state);
    UnitAttemptKeepsRest(t, key, next, NextUnitState(status, next), id, at);
    UnitRowAfterAdvance(t, key, next, NextUnitState(status, next), id, at);
  }

  /** A receipt that is stored and names an attempt of a work unit has exactly the effect its status asks
      for. */
  lemma UnitReceiptOutcome(t: Tables, r: Incoming, now: int, at: int, id: string, key: string)
    requires Sound(t) && at == (if r.receivedAt.Some? then r.receivedAt.value else now)
    requires StoredReceipt(t, r, at).Some? && StoredReceipt(t, r, at).value.0 == id
    requires WorksOn(StoredReceipt(t, r, at).value.1, r, key) && key !in t.attempts && key in t.unitAttempts
    ensures t.unitAttempts[key].unitId in t.units
    ensures var after := Ingest(t, r, now);
      && id in after.receipts && after.receipts == t.receipts[id := after.receipts[id]]
      && UnitAttemptEffect(t, after, key, r.status, id, at)
  {
    var row := StoredReceipt(t, r, at).value.1;
    StoredThenAdvanced(t, r, now, at, id, row);
    StoredUnitOutcome(t, WithReceipt(t, id, row), id, row, r, key, at);
  }

  lemma StoredUnitOutcome(before: Tables, t: Tables, id: string, row: Receipt, r: Incoming, key: string, at: int)
    requires t == before.(receipts := t.receipts, receiptIndex := t.receiptIndex)
    requires WorksOn(row, r, key) && key !in t.attempts && key in t.unitAttempts && t.unitAttempts[key].unitId in t.units
    ensures UnitAttemptEffect(before, Advance(t, id, row, r, at), key, row.status, id, at)
  {
    AdvanceUnitHasEffect(t, key, row.status, id, at);
  }

  /** A receipt that works on no attempt changes the receipt tables alone. */
  lemma UnattachedReceiptOutcome(t: Tables, r: Incoming, now: int, at: int)
    requires at == (if r.receivedAt.Some? then r.receivedAt.value else now)
    requires StoredReceipt(t, r, at).Some? ==>
      forall key | WorksOn(StoredReceipt(t, r, at).value.1, r, key) :: key !in t.attempts && key !in t.unitAttempts
    ensures Ingest(t, r, now) == t.(receipts := Ingest(t, r, now).receipts, receiptIndex := Ingest(t, r, now).receiptIndex)
  {
    if StoredReceipt(t, r, at).Some? {
      var row := StoredReceipt(t, r, at).value.1;
      var key := EffectiveKey(row, r);
      assert IsGiven(key) ==> WorksOn(row, r, key.value);
    }
  }

  /* ------------------------------------------------------------------ status updates */

  /** A task's status update writes the state; blocking, completing, superseding or cancelling it gives its
      slots back and nobody else's, under that name, and a signal is appended if one is named. */
  lemma TaskUpdateOutcome(t: Tables, taskId: string, state: TaskState, signal: Option<string>)
    requires taskId in t.tasks && MayMoveTask(t.tasks[taskId].state, state)
    ensures var after := SetTask(t, taskId, state, signal);
      var runId := t.tasks[taskId].runId;
      && after == t.(tasks := t.tasks[taskId := TaskRow(runId, state)], claims := after.claims, signals := after.signals)
      && (state.Blocked? ==> GivenBack(t.claims, after.claims, runId, true, taskId, None, "task-blocked"))
      && (state.Completed? ==> GivenBack(t.claims, after.claims, runId, true, taskId, None, "task-completed"))
      && (state.Superseded? ==> GivenBack(t.claims, after.claims, runId, true, taskId, None, "task-superseded"))
      && (state.Cancelled? ==> GivenBack(t.claims, after.claims, runId, true, taskId, None, "task-cancelled"))
      && (!state.Blocked? && !IsTerminalTask(state) ==> after.claims == t.claims)
      && after.signals == t.signals
           + if signal.Some? && signal.value != "" then [Signal(runId, taskId, Custom(signal.value))] else []
  {
    ReleasedRowsExactly(t.claims, t.tasks[taskId].runId, true, taskId, None, TaskReason(state));
  }

  /** A work unit's status update likewise, with the slots of its lane claim. */
  lemma UnitUpdateOutcome(t: Tables, unitId: string, state: UnitState, signal: Option<string>)
    requires unitId in t.units && MayMoveUnit(t.units[unitId].state, state) && t.units[unitId].taskId in t.tasks
    ensures var after := SetUnit(t, unitId, state, signal);
      var runId := t.tasks[t.units[unitId].taskId].runId;
      && after == t.(units := t.units[unitId := UnitRow(t.units[unitId].taskId, state)], claims := after.claims, signals := after.signals)
      && (state.UnitBlocked? ==> GivenBack(t.claims, after.claims, runId, false, unitId, None, "work-unit-blocked"))
      && (state.UnitCompleted? ==> GivenBack(t.claims, after.claims, runId, false, unitId, None, "work-unit-completed"))
      && (state.UnitFailed? ==> GivenBack(t.claims, after.claims, runId, false, unitId, None, "work-unit-failed"))
      && (state.UnitCancelled? ==> GivenBack(t.claims, after.claims, runId, false, unitId, None, "work-unit-cancelled"))
      && (!state.UnitBlocked? && !state.UnitCompleted? && !state.UnitFailed? && !state.UnitCancelled? ==> after.claims == t.claims)
      && after.signals == t.signals
           + if signal.Some? && signal.value != "" then [Signal(runId, unitId, Custom(signal.value))] else []
  {
    ReleasedRowsExactly(t.claims, t.tasks[t.units[unitId].taskId].runId, false, unitId, None, UnitReason(state));
  }

  /** An update that the tables of transitions do not allow changes nothing. */
  lemma RefusedUpdateOutcome(t: Tables, id: string, task: TaskState, unit: UnitState, signal: Option<string>)
    ensures id !in t.tasks || !MayMoveTask(t.tasks[id].state, task) ==> SetTask(t, id, task, signal) == t
    ensures id !in t.units || !MayMoveUnit(t.units[id].state, unit) ==> SetUnit(t, id, unit, signal) == t
  {
  }

  /* ---------------------------------------------------------------------- intents */

  /** A task intent is carried out exactly for a task of a given name that may be dispatched, under a new
      key and attempt id.  The task is then dispatching; the attempt is the task's next one, dispatched
      and not yet started; its outbox row waits and was never emitted; and a task that was only proposed
      is announced as ready first. */
  lemma IntentOutcome(t: Tables, taskId: string, key: string, attemptId: string, thread: Option<string>)
    requires Sound(t)
    ensures var after := Intend(t, taskId, key, attemptId, thread);
      var isNew := taskId != "" && key != "" && taskId in t.tasks && key !in t.attempts && key !in t.outbox
        && (forall k | k in t.attempts :: t.attempts[k].id != attemptId)
        && (t.tasks[taskId].state.Proposed? || t.tasks[taskId].state.Ready? || t.tasks[taskId].state.Dispatching?);
      && (!isNew ==> after == t)
      && (isNew ==>
            var run := t.tasks[taskId].runId;
            && key in after.attempts
            && after == t.(tasks := t.tasks[taskId := TaskRow(run, Dispatching)],
                           attempts := t.attempts[key :=
                             Attempt(attemptId, taskId, after.attempts[key].attemptNo, Dispatched, thread, None, None, None)],
                           outbox := t.outbox[key := OutboxRow(run, TaskTarget, taskId, attemptId, Pending, 0)],
                           signals := t.signals
                             + (if t.tasks[taskId].state.Proposed? then [Signal(run, taskId, TaskReadySignal)] else [])
                             + [Signal(run, taskId, LaneDispatchIntent)])
            && IsNext(TaskSlots(t.attempts), taskId, after.attempts[key].attemptNo))
  {
    if IntentRefusal(t, taskId, key, attemptId).None? && key !in t.attempts {
      LargestIsNext(TaskSlots(t.attempts), taskId);
    }
  }

  /** The number is one past the owner's other numbers, which are all those below it. */
  ghost predicate IsNext(slots: map<string, Slot>, owner: string, no: nat) {
    && no >= 1
    && (forall k | k in slots && slots[k].owner == owner :: slots[k].no < no)
    && (forall n: nat | 1 <= n < no :: HasNumber(slots, owner, n))
  }

  ghost predicate HasNumber(slots: map<string, Slot>, owner: string, n: nat) {
    exists k :: k in slots && slots[k].owner == owner && slots[k].no == n
  }

  lemma LargestIsNext(slots: map<string, Slot>, owner: string)
    requires Numbered(slots)
    ensures IsNext(slots, owner, Largest(Numbers(slots, owner)) + 1)
  {
    var numbers := Numbers(slots, owner);
    forall k | k in slots && slots[k].owner == owner ensures slots[k].no <= Largest(numbers) {
      assert slots[k].no in numbers;
    }
    forall n: nat | 1 <= n < Largest(numbers) + 1 ensures HasNumber(slots, owner, n) {
      assert n in numbers;
    }
  }

  /** An attempt of a work unit is begun exactly for a unit that is there, under a new key and id: the
      unit's next attempt, neither started nor announced. */
  lemma BeginOutcome(t: Tables, unitId: string, key: string, attemptId: string)
    requires Sound(t)
    ensures var after := BeginUnit(t, unitId, key, attemptId);
      var isNew := unitId in t.units && key !in t.unitAttempts && forall k | k in t.unitAttempts :: t.unitAttempts[k].id != attemptId;
      && (!isNew ==> after == t)
      && (isNew ==>
            && key in after.unitAttempts
            && after == t.(unitAttempts := t.unitAttempts[key :=
                 UnitAttempt(attemptId, unitId, after.unitAttempts[key].attemptNo, UnitAttemptCreated, None, None, None)])
            && IsNext(UnitSlots(t.unitAttempts), unitId, after.unitAttempts[key].attemptNo))
  {
    if BeginRefusal(t, unitId, key, attemptId).None? && key !in t.unitAttempts {
      LargestIsNext(UnitSlots(t.unitAttempts), unitId);
    }
  }

  /** A unit intent is carried out exactly for a unit of a task that is there, with an attempt of its own
      under this key, or under this id where the key has none, and no outbox row under the key. */
  lemma UnitIntentOutcome(t: Tables, unitId: string, key: string, attemptId: string)
    ensures var after := IntendUnit(t, unitId, key, attemptId);
      var known := unitId != "" && key != "" && unitId in t.units && t.units[unitId].taskId in t.tasks
        && (if key in t.unitAttempts then t.unitAttempts[key].unitId == unitId
            else exists k :: k in t.unitAttempts && t.unitAttempts[k].id == attemptId && t.unitAttempts[k].unitId == unitId);
      if known && key !in t.outbox then
        var run := t.tasks[t.units[unitId].taskId].runId;
        after == t.(outbox := t.outbox[key := OutboxRow(run, UnitTarget, unitId, attemptId, Pending, 0)],
                    signals := t.signals + [Signal(run, unitId, WorkUnitDelegated)])
      else after == t
  {
  }

  /** Emitting counts once more, and only for a row that waits or was emitted before. */
  lemma EmitOutcome(t: Tables, key: string)
    ensures var after := MarkEmitted(t, key);
      if key in t.outbox && t.outbox[key].state in {Pending, Emitted} then
        var row := t.outbox[key];
        after == t.(outbox := t.outbox[key :=
          OutboxRow(row.runId, row.targetType, row.targetId, row.attemptId, Emitted, row.emitCount + 1)])
      else after == t
  {
  }
}
