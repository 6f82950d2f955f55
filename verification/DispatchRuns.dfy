/** What every run of the dispatch tables keeps: numbering and pairing of intents, evidence that
    stays as it was recorded, and states that only move forward. */
module DispatchRuns {
  import opened Common
  import opened States
  import opened StoreRows
  import opened ResourceObservation
  import opened ResourceClaims
  import opened Dispatch

  /* ------------------------------------------------------------- invariants */

  /** The attempts of every owner are numbered exactly 1..n. */
  ghost predicate Numbered(slots: map<string, Slot>) {
    && (forall owner {:trigger Numbers(slots, owner)} :: Numbers(slots, owner) == OneTo(Largest(Numbers(slots, owner))))
    && (forall k, l | k in slots && l in slots && k != l :: slots[k] != slots[l])
  }

  ghost predicate DistinctAttemptIds(attempts: map<string, Attempt>) {
    forall k, l | k in attempts && l in attempts && k != l :: attempts[k].id != attempts[l].id
  }

  /** The same for the attempts of work units, each of a unit that is there. */
  ghost predicate UnitAttemptsOk(units: map<string, UnitRow>, unitAttempts: map<string, UnitAttempt>) {
    && Numbered(UnitSlots(unitAttempts))
    && (forall k | k in unitAttempts :: unitAttempts[k].unitId in units)
    && (forall k, l | k in unitAttempts && l in unitAttempts && k != l :: unitAttempts[k].id != unitAttempts[l].id)
  }

  /** The attempt has an owner, ends exactly in the ended states, and is announced by the outbox row of its key. */
  ghost predicate AttemptOk(tasks: map<string, TaskRow>, outbox: map<string, OutboxRow>, key: string, a: Attempt) {
    && a.taskId in tasks
    && (a.endedAt.Some? <==> IsEnded(a.state))
    && key in outbox
    && outbox[key].targetType.TaskTarget? && outbox[key].targetId == a.taskId && outbox[key].attemptId == a.id
  }

  ghost predicate IntentsOk(tasks: map<string, TaskRow>, attempts: map<string, Attempt>, outbox: map<string, OutboxRow>) {
    && Numbered(TaskSlots(attempts)) && DistinctAttemptIds(attempts)
    && (forall k | k in attempts :: AttemptOk(tasks, outbox, k, attempts[k]))
    && (forall k | k in outbox :: outbox[k].targetType.TaskTarget? ==> k in attempts)
  }

  ghost predicate ReceiptsOk(receipts: map<string, Receipt>, index: map<(string, string), string>) {
    && (forall id | id in receipts :: EvidenceOk(receipts[id].evidence))
    && (forall id | id in receipts && receipts[id].key.Some? ::
          (receipts[id].adapter, receipts[id].key.value) in index && index[(receipts[id].adapter, receipts[id].key.value)] == id)
    && (forall p | p in index ::
          index[p] in receipts && receipts[index[p]].adapter == p.0 && receipts[index[p]].key == Some(p.1))
  }

  ghost predicate Sound(t: Tables) {
    && IntentsOk(t.tasks, t.attempts, t.outbox)
    && ReceiptsOk(t.receipts, t.receiptIndex)
    && UnitAttemptsOk(t.units, t.unitAttempts)
  }

  /* ------------------------------------------------------- receipts: soundness */

  lemma NewReceiptIsOk(t: Tables, id: string, row: Receipt)
    requires ReceiptsOk(t.receipts, t.receiptIndex) && EvidenceOk(row.evidence)
    requires id !in t.receipts && (row.key.Some? ==> (row.adapter, row.key.value) !in t.receiptIndex)
    ensures var after := WithReceipt(t, id, row); ReceiptsOk(after.receipts, after.receiptIndex)
  {
  }

  lemma RewrittenReceiptIsOk(t: Tables, id: string, row: Receipt)
    requires ReceiptsOk(t.receipts, t.receiptIndex) && EvidenceOk(row.evidence)
    requires id in t.receipts && row.key == t.receipts[id].key && row.adapter == t.receipts[id].adapter
    ensures var after := WithReceipt(t, id, row); ReceiptsOk(after.receipts, after.receiptIndex)
  {
    assert WithReceipt(t, id, row).receiptIndex == t.receiptIndex;
  }

  lemma StoredReceiptIsOk(t: Tables, r: Incoming, at: int)
    requires ReceiptsOk(t.receipts, t.receiptIndex) && StoredReceipt(t, r, at).Some?
    ensures var (id, row) := StoredReceipt(t, r, at).value;
      var after := WithReceipt(t, id, row);
      ReceiptsOk(after.receipts, after.receiptIndex)
  {
    var (id, row) := StoredReceipt(t, r, at).value;
    ObservedEvidenceIsOk(r.observation);
    if FindReceipt(t, r).Some? {
      MergedEvidenceIsOk(t.receipts[id].evidence, EvidenceOf(Normalize(r.observation)));
      RewrittenReceiptIsOk(t, id, row);
    } else {
      NewReceiptIsOk(t, id, row);
    }
  }

  /* --------------------------------------------------------- idempotent receipts */

  /** What the ingestion works on is final for it: the row it leaves makes no further progress. */
  lemma UpdatedReceiptIsSettled(row: Receipt, r: Incoming, at: int)
    requires EvidenceOk(row.evidence)
    ensures !MakesProgress(UpdatedReceipt(row, r, at), r)
    ensures !MakesProgress(InsertedReceipt(r, at), r)
  {
    ObservedEvidenceIsOk(r.observation);
    MergedEvidenceIsOk(row.evidence, EvidenceOf(Normalize(r.observation)));
  }

  lemma SecondIngestionFindsNothingToDo(t: Tables, r: Incoming, at: int, later: int)
    requires ReceiptsOk(t.receipts, t.receiptIndex)
    ensures var stored := StoredReceipt(t, r, at);
      stored.Some? ==> StoredReceipt(WithReceipt(t, stored.value.0, stored.value.1), r, later) == None
  {
    var stored := StoredReceipt(t, r, at);
    if stored.Some? {
      var after := WithReceipt(t, stored.value.0, stored.value.1);
      var found := FindReceipt(t, r);
      if found.Some? {
        UpdatedReceiptIsSettled(t.receipts[found.value], r, at);
        assert FindReceipt(after, r) == found;
      } else {
        ObservedEvidenceIsOk(r.observation);
        assert FindReceipt(after, r) == Some(r.id);
        assert !MakesProgress(InsertedReceipt(r, at), r);
      }
    }
  }

  /** Advancing attempts, tasks and the outbox leaves the receipt tables alone. */
  lemma AdvanceKeepsReceipts(t: Tables, id: string, row: Receipt, r: Incoming, at: int)
    ensures var after := Advance(t, id, row, r, at);
      after.receipts == t.receipts && after.receiptIndex == t.receiptIndex
  {
    var key := EffectiveKey(row, r);
    if IsGiven(key) && key.value in t.attempts {
      AttemptKeepsReceipts(t, key.value, NextAttemptState(row.status, t.attempts[key.value].state), id, Either(r.threadId, row.threadId), at);
    } else if IsGiven(key) && key.value in t.unitAttempts {
      var next := NextUnitAttemptState(row.status, t.unitAttempts[key.value].state);
      UnitAttemptKeepsRest(t, key.value, next, NextUnitState(row.status, next), id, at);
    }
  }

  lemma AttemptKeepsReceipts(t: Tables, key: string, next: AttemptState, id: string, thread: Option<string>, at: int)
    requires key in t.attempts
    ensures var after := AdvanceAttempt(t, key, next, id, thread, at);
      && after.receipts == t.receipts && after.receiptIndex == t.receiptIndex
      && after.units == t.units && after.unitAttempts == t.unitAttempts
  {
  }

  lemma UnitAttemptKeepsRest(t: Tables, key: string, next: UnitAttemptState, asked: Option<UnitState>, id: string, at: int)
    requires key in t.unitAttempts
    ensures var after := AdvanceUnitAttempt(t, key, next, asked, id, at);
      && after == t.(units := after.units, unitAttempts := after.unitAttempts, outbox := after.outbox, signals := after.signals)
      && after.outbox == AcknowledgedOutbox(t.outbox, key)
      && after.unitAttempts == t.unitAttempts[key := AdvancedUnitAttempt(t.unitAttempts[key], next, id, at)]
  {
  }

  lemma UnitAttemptKeepsUnits(t: Tables, key: string, next: UnitAttemptState, asked: Option<UnitState>, id: string, at: int)
    requires key in t.unitAttempts
    ensures t.units.Keys <= AdvanceUnitAttempt(t, key, next, asked, id, at).units.Keys
  {
  }

  /** Ingesting the same receipt again, whenever, changes no table. */
  lemma IngestIsIdempotent(t: Tables, r: Incoming, now: int, later: int)
    requires ReceiptsOk(t.receipts, t.receiptIndex)
    ensures Ingest(Ingest(t, r, now), r, later) == Ingest(t, r, now)
  {
    var at := if r.receivedAt.Some? then r.receivedAt.value else now;
    var again := if r.receivedAt.Some? then r.receivedAt.value else later;
    var stored := StoredReceipt(t, r, at);
    if stored.Some? {
      var (id, row) := stored.value;
      SecondIngestionFindsNothingToDo(t, r, at, again);
      AdvanceKeepsReceipts(WithReceipt(t, id, row), id, row, r, at);
      var once := Ingest(t, r, now);
      assert StoredReceipt(once, r, again) == StoredReceipt(WithReceipt(t, id, row), r, again);
    } else {
      assert StoredReceipt(t, r, again) == None;
    }
  }

  /* ------------------------------------------------------ intents: soundness */

  lemma NumbersAfterInsert(slots: map<string, Slot>, key: string, s: Slot, owner: string)
    requires key !in slots
    ensures Numbers(slots[key := s], owner) == Numbers(slots, owner) + if s.owner == owner then {s.no} else {}
  {
    var after := slots[key := s];
    forall n | n in Numbers(slots, owner) ensures n in Numbers(after, owner) {
      var k :| k in slots && slots[k].owner == owner && slots[k].no == n;
      assert after[k] == slots[k];
    }
    if s.owner == owner { assert after[key] == s; }
  }

  lemma NextNumberForOwner(slots: map<string, Slot>, key: string, s: Slot, owner: string)
    requires Numbers(slots, owner) == OneTo(Largest(Numbers(slots, owner))) && key !in slots
    requires s.no == Largest(Numbers(slots, s.owner)) + 1
    ensures Numbers(slots[key := s], owner) == OneTo(Largest(Numbers(slots[key := s], owner)))
  {
    NumbersAfterInsert(slots, key, s, owner);
    if owner == s.owner {
      assert OneTo(s.no - 1) + {s.no} == OneTo(s.no);
      LargestOfOneTo(s.no);
    }
  }

  /** The next attempt of an owner takes the next number. */
  lemma NextNumberIsDense(slots: map<string, Slot>, key: string, s: Slot)
    requires Numbered(slots) && key !in slots && s.no == Largest(Numbers(slots, s.owner)) + 1
    ensures Numbered(slots[key := s])
  {
    var after := slots[key := s];
    forall owner ensures Numbers(after, owner) == OneTo(Largest(Numbers(after, owner))) {
      assert Numbers(slots, owner) == OneTo(Largest(Numbers(slots, owner)));
      NextNumberForOwner(slots, key, s, owner);
    }
    assert s.no !in Numbers(slots, s.owner);
  }

  lemma NewAttemptIsNumbered(attempts: map<string, Attempt>, key: string, a: Attempt)
    requires Numbered(TaskSlots(attempts)) && DistinctAttemptIds(attempts) && key !in attempts
    requires forall k | k in attempts :: attempts[k].id != a.id
    requires a.attemptNo == Largest(Numbers(TaskSlots(attempts), a.taskId)) + 1
    ensures Numbered(TaskSlots(attempts[key := a])) && DistinctAttemptIds(attempts[key := a])
  {
    NextNumberIsDense(TaskSlots(attempts), key, Slot(a.taskId, a.attemptNo));
    assert TaskSlots(attempts[key := a]) == TaskSlots(attempts)[key := Slot(a.taskId, a.attemptNo)];
  }

  lemma NewIntentIsPaired(t: Tables, key: string, a: Attempt, row: OutboxRow, task: TaskRow)
    requires (forall k | k in t.attempts :: AttemptOk(t.tasks, t.outbox, k, t.attempts[k])) && key !in t.attempts && key !in t.outbox
    requires a.taskId in t.tasks && a.state.Dispatched? && a.endedAt.None?
    requires row.targetType.TaskTarget? && row.targetId == a.taskId && row.attemptId == a.id
    ensures var attempts := t.attempts[key := a];
      forall k | k in attempts :: AttemptOk(t.tasks[a.taskId := task], t.outbox[key := row], k, attempts[k])
  {
    var tasks, attempts, outbox := t.tasks[a.taskId := task], t.attempts[key := a], t.outbox[key := row];
    forall k | k in attempts ensures AttemptOk(tasks, outbox, k, attempts[k]) {
      if k != key { assert AttemptOk(t.tasks, t.outbox, k, t.attempts[k]); }
    }
  }

  lemma NewIntentIsOk(t: Tables, key: string, a: Attempt, row: OutboxRow, task: TaskRow)
    requires IntentsOk(t.tasks, t.attempts, t.outbox)
    requires key !in t.attempts && key !in t.outbox && a.taskId in t.tasks
    requires forall k | k in t.attempts :: t.attempts[k].id != a.id
    requires a.attemptNo == Largest(Numbers(TaskSlots(t.attempts), a.taskId)) + 1 && a.state.Dispatched? && a.endedAt.None?
    requires row.targetType.TaskTarget? && row.targetId == a.taskId && row.attemptId == a.id
    ensures IntentsOk(t.tasks[a.taskId := task], t.attempts[key := a], t.outbox[key := row])
  {
    NewAttemptIsNumbered(t.attempts, key, a);
    NewIntentIsPaired(t, key, a, row, task);
  }

  /** Same target columns for every outbox row, new rows only for work units. */
  ghost predicate SameTargets(before: map<string, OutboxRow>, after: map<string, OutboxRow>) {
    && (forall k | k in before :: k in after && after[k].targetType == before[k].targetType
          && after[k].targetId == before[k].targetId && after[k].attemptId == before[k].attemptId)
    && (forall k | k in after && k !in before :: after[k].targetType.UnitTarget?)
  }

  lemma IntentsSurvive(t: Tables, tasks: map<string, TaskRow>, outbox: map<string, OutboxRow>)
    requires IntentsOk(t.tasks, t.attempts, t.outbox)
    requires t.tasks.Keys <= tasks.Keys && SameTargets(t.outbox, outbox)
    ensures IntentsOk(tasks, t.attempts, outbox)
  {
    forall k | k in t.attempts ensures AttemptOk(tasks, outbox, k, t.attempts[k]) {
      assert AttemptOk(t.tasks, t.outbox, k, t.attempts[k]);
    }
  }

  lemma RewrittenAttemptIsOk(t: Tables, key: string, a: Attempt)
    requires IntentsOk(t.tasks, t.attempts, t.outbox) && key in t.attempts
    requires a.id == t.attempts[key].id && a.taskId == t.attempts[key].taskId && a.attemptNo == t.attempts[key].attemptNo
    requires a.endedAt.Some? <==> IsEnded(a.state)
    ensures IntentsOk(t.tasks, t.attempts[key := a], t.outbox)
  {
    var attempts := t.attempts[key := a];
    assert TaskSlots(attempts) == TaskSlots(t.attempts);
    forall k | k in attempts ensures AttemptOk(t.tasks, t.outbox, k, attempts[k]) {
      assert AttemptOk(t.tasks, t.outbox, k, t.attempts[k]);
    }
  }

  lemma AcknowledgingKeepsTargets(outbox: map<string, OutboxRow>, key: string)
    ensures SameTargets(outbox, AcknowledgedOutbox(outbox, key))
  {
  }

  lemma AdvancedAttemptIsOk(t: Tables, key: string, next: AttemptState, id: string, thread: Option<string>, at: int)
    requires IntentsOk(t.tasks, t.attempts, t.outbox) && key in t.attempts
    ensures IntentsOk(t.tasks, t.attempts[key := AdvancedAttempt(t.attempts[key], next, id, thread, at)], t.outbox)
  {
    RewrittenAttemptIsOk(t, key, AdvancedAttempt(t.attempts[key], next, id, thread, at));
  }

  lemma AdvanceAttemptKeepsIntents(t: Tables, key: string, next: AttemptState, id: string, thread: Option<string>, at: int)
    requires IntentsOk(t.tasks, t.attempts, t.outbox) && key in t.attempts
    ensures var after := AdvanceAttempt(t, key, next, id, thread, at); IntentsOk(after.tasks, after.attempts, after.outbox)
  {
    AdvancedAttemptIsOk(t, key, next, id, thread, at);
    AcknowledgingKeepsTargets(t.outbox, key);
    var after := AdvanceAttempt(t, key, next, id, thread, at);
    IntentsSurvive(t.(attempts := after.attempts), after.tasks, after.outbox);
  }

  lemma AdvanceKeepsSound(t: Tables, id: string, row: Receipt, r: Incoming, at: int)
    requires Sound(t)
    ensures Sound(Advance(t, id, row, r, at))
  {
    var key := EffectiveKey(row, r);
    if IsGiven(key) && key.value in t.attempts {
      var next, thread := NextAttemptState(row.status, t.attempts[key.value].state), Either(r.threadId, row.threadId);
      AdvanceAttemptKeepsIntents(t, key.value, next, id, thread, at);
      AttemptKeepsReceipts(t, key.value, next, id, thread, at);
    } else if IsGiven(key) && key.value in t.unitAttempts {
      var next := NextUnitAttemptState(row.status, t.unitAttempts[key.value].state);
      UnitAttemptKeepsRest(t, key.value, next, NextUnitState(row.status, next), id, at);
      UnitAttemptKeepsUnits(t, key.value, next, NextUnitState(row.status, next), id, at);
      RewrittenUnitAttemptIsOk(t.units, t.unitAttempts, key.value, AdvancedUnitAttempt(t.unitAttempts[key.value], next, id, at),
                               AdvanceUnitAttempt(t, key.value, next, NextUnitState(row.status, next), id, at).units);
      AcknowledgingKeepsTargets(t.outbox, key.value);
      IntentsSurvive(t, t.tasks, AcknowledgedOutbox(t.outbox, key.value));
    }
  }

  lemma IngestKeepsSound(t: Tables, r: Incoming, now: int)
    requires Sound(t)
    ensures Sound(Ingest(t, r, now))
  {
    var at := if r.receivedAt.Some? then r.receivedAt.value else now;
    if StoredReceipt(t, r, at).Some? {
      var (id, row) := StoredReceipt(t, r, at).value;
      StoredReceiptIsOk(t, r, at);
      AdvanceKeepsSound(WithReceipt(t, id, row), id, row, r, at);
    }
  }

  lemma IntendKeepsSound(t: Tables, taskId: string, key: string, attemptId: string, thread: Option<string>)
    requires Sound(t)
    ensures Sound(Intend(t, taskId, key, attemptId, thread))
  {
    if IntentRefusal(t, taskId, key, attemptId).None? && key !in t.attempts {
      var after := Intend(t, taskId, key, attemptId, thread);
      NewIntentIsOk(t, key, after.attempts[key], after.outbox[key], after.tasks[taskId]);
    }
  }

  lemma RowUpdateKeepsSound(t: Tables, after: Tables)
    requires Sound(t)
    requires after.attempts == t.attempts && after.unitAttempts == t.unitAttempts
    requires after.receipts == t.receipts && after.receiptIndex == t.receiptIndex
    requires t.tasks.Keys <= after.tasks.Keys && t.units.Keys <= after.units.Keys
    requires SameTargets(t.outbox, after.outbox)
    ensures Sound(after)
  {
    IntentsSurvive(t, after.tasks, after.outbox);
  }

  lemma RewrittenUnitAttemptIsOk(units: map<string, UnitRow>, unitAttempts: map<string, UnitAttempt>, key: string, a: UnitAttempt,
                                 after: map<string, UnitRow>)
    requires UnitAttemptsOk(units, unitAttempts) && key in unitAttempts && units.Keys <= after.Keys
    requires a.id == unitAttempts[key].id && a.unitId == unitAttempts[key].unitId && a.attemptNo == unitAttempts[key].attemptNo
    ensures UnitAttemptsOk(after, unitAttempts[key := a])
  {
    var now := unitAttempts[key := a];
    assert UnitSlots(now) == UnitSlots(unitAttempts);
    assert forall k | k in now :: k in unitAttempts && now[k].id == unitAttempts[k].id && now[k].unitId == unitAttempts[k].unitId;
  }

  lemma BegunUnitAttemptIsOk(units: map<string, UnitRow>, unitAttempts: map<string, UnitAttempt>, key: string, a: UnitAttempt)
    requires UnitAttemptsOk(units, unitAttempts) && key !in unitAttempts && a.unitId in units
    requires forall k | k in unitAttempts :: unitAttempts[k].id != a.id
    requires a.attemptNo == Largest(Numbers(UnitSlots(unitAttempts), a.unitId)) + 1
    ensures UnitAttemptsOk(units, unitAttempts[key := a])
  {
    NextNumberIsDense(UnitSlots(unitAttempts), key, Slot(a.unitId, a.attemptNo));
    assert UnitSlots(unitAttempts[key := a]) == UnitSlots(unitAttempts)[key := Slot(a.unitId, a.attemptNo)];
  }

  lemma BeginUnitKeepsSound(t: Tables, unitId: string, key: string, attemptId: string)
    requires Sound(t)
    ensures Sound(BeginUnit(t, unitId, key, attemptId))
  {
    if BeginRefusal(t, unitId, key, attemptId).None? && key !in t.unitAttempts {
      BegunUnitAttemptIsOk(t.units, t.unitAttempts, key, BeginUnit(t, unitId, key, attemptId).unitAttempts[key]);
    }
  }

  lemma IntendingUnitTouches(t: Tables, unitId: string, key: string, attemptId: string)
    ensures var after := IntendUnit(t, unitId, key, attemptId);
      && SameTargets(t.outbox, after.outbox)
      && after == t.(outbox := after.outbox, signals := after.signals)
  {
  }

  lemma IntendUnitKeepsSound(t: Tables, unitId: string, key: string, attemptId: string)
    requires Sound(t)
    ensures Sound(IntendUnit(t, unitId, key, attemptId))
  {
    IntendingUnitTouches(t, unitId, key, attemptId);
    RowUpdateKeepsSound(t, IntendUnit(t, unitId, key, attemptId));
  }

  lemma EmittingKeepsTargets(t: Tables, key: string)
    ensures var after := MarkEmitted(t, key);
      && SameTargets(t.outbox, after.outbox)
      && after == t.(outbox := after.outbox)
  {
    var after := MarkEmitted(t, key);
    if key in t.outbox && (t.outbox[key].state.Pending? || t.outbox[key].state.Emitted?) {
      assert after.outbox == t.outbox[key := t.outbox[key].(state := Emitted, emitCount := t.outbox[key].emitCount + 1)];
    } else {
      assert after == t;
    }
  }

  lemma EmitKeepsSound(t: Tables, key: string)
    requires Sound(t)
    ensures Sound(MarkEmitted(t, key))
  {
    EmittingKeepsTargets(t, key);
    RowUpdateKeepsSound(t, MarkEmitted(t, key));
  }

  lemma SetTaskTouches(t: Tables, taskId: string, state: TaskState, signal: Option<string>)
    ensures var after := SetTask(t, taskId, state, signal);
      && after == t.(tasks := after.tasks, claims := after.claims, signals := after.signals)
      && t.signals <= after.signals
      && after.tasks == (if taskId in t.tasks && MayMoveTask(t.tasks[taskId].state, state)
                         then t.tasks[taskId := t.tasks[taskId].(state := state)] else t.tasks)
  {
  }

  lemma SetTaskKeepsSound(t: Tables, taskId: string, state: TaskState, signal: Option<string>)
    requires Sound(t)
    ensures Sound(SetTask(t, taskId, state, signal))
  {
    SetTaskTouches(t, taskId, state, signal);
    RowUpdateKeepsSound(t, SetTask(t, taskId, state, signal));
  }

  lemma SetUnitTouches(t: Tables, unitId: string, state: UnitState, signal: Option<string>)
    ensures var after := SetUnit(t, unitId, state, signal);
      && after == t.(units := after.units, claims := after.claims, signals := after.signals)
      && t.signals <= after.signals
      && after.units == (if unitId in t.units && MayMoveUnit(t.units[unitId].state, state)
                         then t.units[unitId := t.units[unitId].(state := state)] else t.units)
  {
  }

  lemma SetUnitKeepsSound(t: Tables, unitId: string, state: UnitState, signal: Option<string>)
    requires Sound(t)
    ensures Sound(SetUnit(t, unitId, state, signal))
  {
    SetUnitTouches(t, unitId, state, signal);
    RowUpdateKeepsSound(t, SetUnit(t, unitId, state, signal));
  }

  lemma IntentStepKeepsSound(t: Tables, e: Event)
    requires Sound(t) && (e.IntendEvent? || e.BeginUnitEvent? || e.IntendUnitEvent?)
    ensures Sound(Step(t, e))
  {
    match e {
      case IntendEvent(taskId, key, attemptId, thread) => IntendKeepsSound(t, taskId, key, attemptId, thread);
      case BeginUnitEvent(unitId, key, attemptId) => BeginUnitKeepsSound(t, unitId, key, attemptId);
      case IntendUnitEvent(unitId, key, attemptId) => IntendUnitKeepsSound(t, unitId, key, attemptId);
    }
  }

  lemma StatusStepKeepsSound(t: Tables, e: Event)
    requires Sound(t) && (e.EmitEvent? || e.SetTaskEvent? || e.SetUnitEvent?)
    ensures Sound(Step(t, e))
  {
    match e {
      case EmitEvent(key) =>
        assert Step(t, e) == MarkEmitted(t, key);
        EmitKeepsSound(t, key);
      case SetTaskEvent(taskId, state, signal) =>
        assert Step(t, e) == SetTask(t, taskId, state, signal);
        SetTaskKeepsSound(t, taskId, state, signal);
      case SetUnitEvent(unitId, state, signal) =>
        assert Step(t, e) == SetUnit(t, unitId, state, signal);
        SetUnitKeepsSound(t, unitId, state, signal);
    }
  }

  /** Every operation keeps the tables sound: attempts numbered 1..n, keys paired one to one with
      outbox rows, ends recorded exactly, evidence complete. */
  lemma StepKeepsSound(t: Tables, e: Event)
    requires Sound(t)
    ensures Sound(Step(t, e))
  {
    if e.IngestEvent? {
      assert Step(t, e) == Ingest(t, e.receipt, e.now);
      IngestKeepsSound(t, e.receipt, e.now);
    } else if e.EmitEvent? || e.SetTaskEvent? || e.SetUnitEvent? {
      StatusStepKeepsSound(t, e);
    } else {
      IntentStepKeepsSound(t, e);
    }
  }

  /* --------------------------------------------------------- moving forward */

  /** dispatched, acknowledged, active, ended. */
  function Rank(s: AttemptState): nat {
    match s
    case AttemptCreated => 0
    case Dispatched => 0
    case Acknowledged => 1
    case AttemptActive => 2
    case _ => 3
  }

  function UnitRank(s: UnitAttemptState): nat {
    match s
    case UnitAttemptCreated => 0
    case Delegated => 0
    case UnitAttemptActive => 1
    case UnitAttemptBlocked => 1
    case _ => 2
  }

  function OutboxRank(s: OutboxState): nat {
    match s
    case Pending => 0
    case Emitted => 1
    case _ => 2
  }

  ghost predicate TaskMovesOn(a: TaskRow, b: TaskRow) {
    b.runId == a.runId && Reaches(TaskEdge, a.state, b.state)
  }

  ghost predicate UnitMovesOn(a: UnitRow, b: UnitRow) {
    b.taskId == a.taskId && Reaches(UnitEdge, a.state, b.state)
  }

  /** The rank never falls, an ended attempt stays ended, and what identified or started it stays. */
  ghost predicate AttemptMovesOn(a: Attempt, b: Attempt) {
    && b.id == a.id && b.taskId == a.taskId && b.attemptNo == a.attemptNo
    && Rank(a.state) <= Rank(b.state) && (IsEnded(a.state) ==> IsEnded(b.state))
    && (a.threadId.Some? ==> b.threadId == a.threadId)
    && (a.startedAt.Some? ==> b.startedAt == a.startedAt)
  }

  ghost predicate UnitAttemptMovesOn(a: UnitAttempt, b: UnitAttempt) {
    && b.id == a.id && b.unitId == a.unitId && b.attemptNo == a.attemptNo && UnitRank(a.state) <= UnitRank(b.state)
    && (a.startedAt.Some? ==> b.startedAt == a.startedAt) && (a.endedAt.Some? ==> b.endedAt == a.endedAt)
  }

  /** pending, emitted, acknowledged; the emission count is frozen after that. */
  ghost predicate OutboxMovesOn(a: OutboxRow, b: OutboxRow) {
    && b.targetType == a.targetType && b.targetId == a.targetId && b.attemptId == a.attemptId && b.runId == a.runId
    && OutboxRank(a.state) <= OutboxRank(b.state) && a.emitCount <= b.emitCount
    && (OutboxRank(a.state) == 2 ==> b == a)
  }

  ghost predicate ReceiptMovesOn(a: Receipt, b: Receipt) {
    b.key == a.key && b.adapter == a.adapter && (a.evidence.isResolved ==> b.evidence == a.evidence)
  }

  ghost predicate TasksMoveOn(a: map<string, TaskRow>, b: map<string, TaskRow>) {
    forall k | k in a :: k in b && TaskMovesOn(a[k], b[k])
  }

  ghost predicate UnitsMoveOn(a: map<string, UnitRow>, b: map<string, UnitRow>) {
    forall k | k in a :: k in b && UnitMovesOn(a[k], b[k])
  }

  ghost predicate AttemptsMoveOn(a: map<string, Attempt>, b: map<string, Attempt>) {
    forall k | k in a :: k in b && AttemptMovesOn(a[k], b[k])
  }

  ghost predicate UnitAttemptsMoveOn(a: map<string, UnitAttempt>, b: map<string, UnitAttempt>) {
    forall k | k in a :: k in b && UnitAttemptMovesOn(a[k], b[k])
  }

  ghost predicate OutboxesMoveOn(a: map<string, OutboxRow>, b: map<string, OutboxRow>) {
    forall k | k in a :: k in b && OutboxMovesOn(a[k], b[k])
  }

  ghost predicate ReceiptsMoveOn(a: map<string, Receipt>, b: map<string, Receipt>) {
    forall k | k in a :: k in b && ReceiptMovesOn(a[k], b[k])
  }

  ghost predicate MovesOn(a: Tables, b: Tables) {
    && TasksMoveOn(a.tasks, b.tasks) && UnitsMoveOn(a.units, b.units)
    && AttemptsMoveOn(a.attempts, b.attempts) && UnitAttemptsMoveOn(a.unitAttempts, b.unitAttempts)
    && OutboxesMoveOn(a.outbox, b.outbox) && ReceiptsMoveOn(a.receipts, b.receipts)
    && a.signals <= b.signals
  }

  lemma TasksStay(a: map<string, TaskRow>)
    ensures TasksMoveOn(a, a)
  {
    forall k | k in a ensures TaskMovesOn(a[k], a[k]) { MovedTaskReaches(a[k].state, a[k].state); }
  }

  lemma UnitsStay(a: map<string, UnitRow>)
    ensures UnitsMoveOn(a, a)
  {
    forall k | k in a ensures UnitMovesOn(a[k], a[k]) { MovedUnitReaches(a[k].state, a[k].state); }
  }

  lemma Stays(t: Tables)
    ensures MovesOn(t, t)
  {
    TasksStay(t.tasks);
    UnitsStay(t.units);
  }

  lemma TasksMoveOnTransitive(a: map<string, TaskRow>, b: map<string, TaskRow>, c: map<string, TaskRow>)
    requires TasksMoveOn(a, b) && TasksMoveOn(b, c)
    ensures TasksMoveOn(a, c)
  {
    forall k | k in a ensures k in c && TaskMovesOn(a[k], c[k]) {
      ReachesIsTransitive(TaskEdge, a[k].state, b[k].state, c[k].state);
    }
  }

  lemma UnitsMoveOnTransitive(a: map<string, UnitRow>, b: map<string, UnitRow>, c: map<string, UnitRow>)
    requires UnitsMoveOn(a, b) && UnitsMoveOn(b, c)
    ensures UnitsMoveOn(a, c)
  {
    forall k | k in a ensures k in c && UnitMovesOn(a[k], c[k]) {
      ReachesIsTransitive(UnitEdge, a[k].state, b[k].state, c[k].state);
    }
  }

  lemma RowsMoveOnTransitive(a: Tables, b: Tables, c: Tables)
    requires MovesOn(a, b) && MovesOn(b, c)
    ensures AttemptsMoveOn(a.attempts, c.attempts) && UnitAttemptsMoveOn(a.unitAttempts, c.unitAttempts)
    ensures OutboxesMoveOn(a.outbox, c.outbox) && ReceiptsMoveOn(a.receipts, c.receipts)
  {
    forall k | k in a.attempts ensures k in c.attempts && AttemptMovesOn(a.attempts[k], c.attempts[k]) {
      assert AttemptMovesOn(a.attempts[k], b.attempts[k]);
    }
    forall k | k in a.unitAttempts ensures k in c.unitAttempts && UnitAttemptMovesOn(a.unitAttempts[k], c.unitAttempts[k]) {
      assert UnitAttemptMovesOn(a.unitAttempts[k], b.unitAttempts[k]);
    }
    forall k | k in a.outbox ensures k in c.outbox && OutboxMovesOn(a.outbox[k], c.outbox[k]) {
      assert OutboxMovesOn(a.outbox[k], b.outbox[k]);
    }
    forall k | k in a.receipts ensures k in c.receipts && ReceiptMovesOn(a.receipts[k], c.receipts[k]) {
      assert ReceiptMovesOn(a.receipts[k], b.receipts[k]);
    }
  }

  lemma MovesOnTransitive(a: Tables, b: Tables, c: Tables)
    requires MovesOn(a, b) && MovesOn(b, c)
    ensures MovesOn(a, c)
  {
    TasksMoveOnTransitive(a.tasks, b.tasks, c.tasks);
    UnitsMoveOnTransitive(a.units, b.units, c.units);
    RowsMoveOnTransitive(a, b, c);
  }

  /** A receipt moves a task along the transition table, possibly over several edges. */
  lemma ReceiptMovesTask(state: TaskState, next: AttemptState)
    ensures Reaches(TaskEdge, state, AdvancedTaskState(state, next))
  {
    var to := AdvancedTaskState(state, next);
    if to == state {
      MovedTaskReaches(state, state);
    } else if to.Active? {
      WalkReaches(TaskEdge, match state case Proposed => [Proposed, Ready, Dispatching, Active]
                                        case Ready => [Ready, Dispatching, Active]
                                        case _ => [Dispatching, Active]);
    } else {
      WalkReaches(TaskEdge, match state case Dispatching => [Dispatching, Active, Verifying]
                                        case Waiting => [Waiting, Active, Verifying]
                                        case _ => [Active, Verifying]);
    }
  }

  /** It need not be an edge: a receipt takes a proposed task to active in one step. */
  lemma ReceiptSkipsEdges()
    ensures AdvancedTaskState(Proposed, AttemptActive) == Active && !TaskEdge(Proposed, Active)
  {
  }

  lemma ReceiptAsksFor(status: string, next: UnitAttemptState)
    ensures var asked := NextUnitState(status, next); asked.None? || asked.value.UnitActive? || asked.value.UnitFailed?
  {
  }

  lemma ReceiptMovesUnit(state: UnitState, asked: Option<UnitState>)
    requires asked.None? || asked.value.UnitActive? || asked.value.UnitFailed?
    ensures Reaches(UnitEdge, state, AdvancedUnitState(state, asked))
  {
    var to := AdvancedUnitState(state, asked);
    if to == state {
      MovedUnitReaches(state, state);
    } else if to.UnitActive? {
      MovedUnitReaches(state, UnitActive);
    } else {
      WalkReaches(UnitEdge, if state.UnitActive? then [UnitActive, UnitFailed] else [state, UnitActive, UnitFailed]);
    }
  }

  lemma IntendedTaskMovesOn(tasks: map<string, TaskRow>, taskId: string)
    requires taskId in tasks && tasks[taskId].state in {Proposed, Ready, Dispatching}
    ensures TasksMoveOn(tasks, tasks[taskId := tasks[taskId].(state := Dispatching)])
  {
    TasksStay(tasks);
    if tasks[taskId].state.Proposed? {
      WalkReaches(TaskEdge, [Proposed, Ready, Dispatching]);
    } else {
      MovedTaskReaches(tasks[taskId].state, Dispatching);
    }
  }

  lemma InsertedMovesOn(t: Tables, taskId: string, key: string, attemptId: string, thread: Option<string>)
    requires taskId in t.tasks && t.tasks[taskId].state in {Proposed, Ready, Dispatching}
    requires key !in t.attempts && key !in t.outbox
    ensures MovesOn(t, Inserted(t, taskId, key, attemptId, thread))
  {
    Stays(t);
    IntendedTaskMovesOn(t.tasks, taskId);
  }

  lemma IntendMovesOn(t: Tables, taskId: string, key: string, attemptId: string, thread: Option<string>)
    ensures MovesOn(t, Intend(t, taskId, key, attemptId, thread))
  {
    if IntentRefusal(t, taskId, key, attemptId).None? && key !in t.attempts {
      InsertedMovesOn(t, taskId, key, attemptId, thread);
    } else {
      Stays(t);
    }
  }

  lemma AcknowledgingMovesOn(outbox: map<string, OutboxRow>, key: string)
    ensures OutboxesMoveOn(outbox, AcknowledgedOutbox(outbox, key))
  {
  }

  lemma AdvancedRowMovesOn(a: Attempt, status: string, id: string, thread: Option<string>, at: int)
    ensures AttemptMovesOn(a, AdvancedAttempt(a, NextAttemptState(status, a.state), id, thread, at))
  {
  }

  lemma AdvancedUnitRowMovesOn(a: UnitAttempt, status: string, id: string, at: int)
    ensures UnitAttemptMovesOn(a, AdvancedUnitAttempt(a, NextUnitAttemptState(status, a.state), id, at))
  {
  }

  lemma AdvanceAttemptTouches(t: Tables, key: string, next: AttemptState, id: string, thread: Option<string>, at: int)
    requires key in t.attempts
    ensures var after := AdvanceAttempt(t, key, next, id, thread, at);
      var a := t.attempts[key];
      && after.attempts == t.attempts[key := AdvancedAttempt(a, next, id, thread, at)]
      && after.outbox == AcknowledgedOutbox(t.outbox, key)
      && t.signals <= after.signals
      && after.tasks == (if a.taskId in t.tasks
                         then t.tasks[a.taskId := t.tasks[a.taskId].(state := AdvancedTaskState(t.tasks[a.taskId].state, next))]
                         else t.tasks)
  {
  }

  lemma ReceiptMovesTasks(tasks: map<string, TaskRow>, taskId: string, next: AttemptState)
    requires taskId in tasks
    ensures TasksMoveOn(tasks, tasks[taskId := tasks[taskId].(state := AdvancedTaskState(tasks[taskId].state, next))])
  {
    TasksStay(tasks);
    ReceiptMovesTask(tasks[taskId].state, next);
  }

  lemma AdvanceAttemptMovesOn(t: Tables, key: string, next: AttemptState, id: string, thread: Option<string>, at: int)
    requires key in t.attempts && AttemptMovesOn(t.attempts[key], AdvancedAttempt(t.attempts[key], next, id, thread, at))
    ensures MovesOn(t, AdvanceAttempt(t, key, next, id, thread, at))
  {
    Stays(t);
    var a := t.attempts[key];
    if a.taskId in t.tasks { ReceiptMovesTasks(t.tasks, a.taskId, next); }
    AcknowledgingMovesOn(t.outbox, key);
    AttemptKeepsReceipts(t, key, next, id, thread, at);
    AdvanceAttemptTouches(t, key, next, id, thread, at);
  }

  lemma AdvanceUnitAttemptMovesOn(t: Tables, key: string, status: string, id: string, at: int)
    requires key in t.unitAttempts
    ensures var next := NextUnitAttemptState(status, t.unitAttempts[key].state);
      MovesOn(t, AdvanceUnitAttempt(t, key, next, NextUnitState(status, next), id, at))
  {
    var a := t.unitAttempts[key];
    var next := NextUnitAttemptState(status, a.state);
    AdvancedUnitRowMovesOn(a, status, id, at);
    ReceiptAsksFor(status, next);
    if a.unitId in t.units { ReceiptMovesUnit(t.units[a.unitId].state, NextUnitState(status, next)); }
    UnitRowsMoveOn(t, key, next, NextUnitState(status, next), id, at);
  }

  lemma UnitRowsMoveOn(t: Tables, key: string, next: UnitAttemptState, asked: Option<UnitState>, id: string, at: int)
    requires key in t.unitAttempts && UnitAttemptMovesOn(t.unitAttempts[key], AdvancedUnitAttempt(t.unitAttempts[key], next, id, at))
    requires var unit := t.unitAttempts[key].unitId;
      unit in t.units ==> Reaches(UnitEdge, t.units[unit].state, AdvancedUnitState(t.units[unit].state, asked))
    ensures MovesOn(t, AdvanceUnitAttempt(t, key, next, asked, id, at))
  {
    Stays(t);
    AcknowledgingMovesOn(t.outbox, key);
    UnitAttemptKeepsRest(t, key, next, asked, id, at);
    var after := AdvanceUnitAttempt(t, key, next, asked, id, at);
    assert UnitsMoveOn(t.units, after.units);
  }

  lemma AdvanceMovesOn(t: Tables, id: string, row: Receipt, r: Incoming, at: int)
    ensures MovesOn(t, Advance(t, id, row, r, at))
  {
    Stays(t);
    var key := EffectiveKey(row, r);
    if IsGiven(key) && key.value in t.attempts {
      var a, thread := t.attempts[key.value], Either(r.threadId, row.threadId);
      AdvancedRowMovesOn(a, row.status, id, thread, at);
      AdvanceAttemptMovesOn(t, key.value, NextAttemptState(row.status, a.state), id, thread, at);
    } else if IsGiven(key) && key.value in t.unitAttempts {
      AdvanceUnitAttemptMovesOn(t, key.value, row.status, id, at);
    }
  }

  lemma IngestMovesOn(t: Tables, r: Incoming, now: int)
    requires Sound(t)
    ensures MovesOn(t, Ingest(t, r, now))
  {
    Stays(t);
    var at := if r.receivedAt.Some? then r.receivedAt.value else now;
    if StoredReceipt(t, r, at).Some? {
      var (id, row) := StoredReceipt(t, r, at).value;
      ReceiptIsKept(t, r, at);
      AdvanceMovesOn(WithReceipt(t, id, row), id, row, r, at);
      MovesOnTransitive(t, WithReceipt(t, id, row), Ingest(t, r, now));
    }
  }

  lemma ReceiptsStayOrMove(t: Tables, r: Incoming, at: int)
    requires ReceiptsOk(t.receipts, t.receiptIndex) && StoredReceipt(t, r, at).Some?
    ensures var (id, row) := StoredReceipt(t, r, at).value;
      ReceiptsMoveOn(t.receipts, t.receipts[id := row])
  {
    var (id, row) := StoredReceipt(t, r, at).value;
    if id in t.receipts {
      ObservedEvidenceIsOk(r.observation);
      MergedEvidenceIsOk(t.receipts[id].evidence, EvidenceOf(Normalize(r.observation)));
      assert ReceiptMovesOn(t.receipts[id], row);
    }
  }

  lemma ReceiptIsKept(t: Tables, r: Incoming, at: int)
    requires Sound(t) && StoredReceipt(t, r, at).Some?
    ensures var (id, row) := StoredReceipt(t, r, at).value;
      MovesOn(t, WithReceipt(t, id, row))
  {
    Stays(t);
    ReceiptsStayOrMove(t, r, at);
  }

  lemma SetTaskMovesOn(t: Tables, taskId: string, state: TaskState, signal: Option<string>)
    ensures MovesOn(t, SetTask(t, taskId, state, signal))
  {
    Stays(t);
    SetTaskTouches(t, taskId, state, signal);
    if taskId in t.tasks && MayMoveTask(t.tasks[taskId].state, state) { MovedTaskReaches(t.tasks[taskId].state, state); }
  }

  lemma SetUnitMovesOn(t: Tables, unitId: string, state: UnitState, signal: Option<string>)
    ensures MovesOn(t, SetUnit(t, unitId, state, signal))
  {
    Stays(t);
    SetUnitTouches(t, unitId, state, signal);
    if unitId in t.units && MayMoveUnit(t.units[unitId].state, state) { MovedUnitReaches(t.units[unitId].state, state); }
  }

  lemma BeginUnitMovesOn(t: Tables, unitId: string, key: string, attemptId: string)
    ensures MovesOn(t, BeginUnit(t, unitId, key, attemptId))
  {
    Stays(t);
  }

  lemma IntendUnitMovesOn(t: Tables, unitId: string, key: string, attemptId: string)
    ensures MovesOn(t, IntendUnit(t, unitId, key, attemptId))
  {
    Stays(t);
  }

  lemma EmitMovesOn(t: Tables, key: string)
    ensures MovesOn(t, MarkEmitted(t, key))
  {
    Stays(t);
  }

  lemma StoreStepMovesOn(t: Tables, e: Event)
    requires !e.IngestEvent?
    ensures MovesOn(t, Step(t, e))
  {
    match e {
      case IntendEvent(taskId, key, attemptId, thread) => IntendMovesOn(t, taskId, key, attemptId, thread);
      case BeginUnitEvent(unitId, key, attemptId) => BeginUnitMovesOn(t, unitId, key, attemptId);
      case IntendUnitEvent(unitId, key, attemptId) => IntendUnitMovesOn(t, unitId, key, attemptId);
      case EmitEvent(key) => EmitMovesOn(t, key);
      case SetTaskEvent(taskId, state, signal) => SetTaskMovesOn(t, taskId, state, signal);
      case SetUnitEvent(unitId, state, signal) => SetUnitMovesOn(t, unitId, state, signal);
    }
  }

  /** Every operation moves every row forward. */
  lemma StepMovesOn(t: Tables, e: Event)
    requires Sound(t)
    ensures MovesOn(t, Step(t, e))
  {
    if e.IngestEvent? {
      assert Step(t, e) == Ingest(t, e.receipt, e.now);
      IngestMovesOn(t, e.receipt, e.now);
    } else {
      StoreStepMovesOn(t, e);
    }
  }

  ghost function Run(t: Tables, events: seq<Event>): Tables
    requires Sound(t)
    decreases |events|
  {
    if events == [] then t
    else
      StepKeepsSound(t, events[0]);
      Run(Step(t, events[0]), events[1..])
  }

  /** Over every run: the tables stay sound, attempt ranks never fall, ended attempts stay ended, task
      and unit states follow their tables, outbox rows only move on, and resolved evidence is never
      changed again. */
  lemma {:induction false} RunIsSafe(t: Tables, events: seq<Event>)
    requires Sound(t)
    ensures Sound(Run(t, events)) && MovesOn(t, Run(t, events))
    decreases |events|
  {
    if events == [] {
      Stays(t);
    } else {
      StepKeepsSound(t, events[0]);
      StepMovesOn(t, events[0]);
      RunIsSafe(Step(t, events[0]), events[1..]);
      MovesOnTransitive(t, Step(t, events[0]), Run(t, events));
    }
  }

  /** A task that has reached a terminal state keeps it over every later run. */
  lemma TerminalTasksStay(t: Tables, events: seq<Event>, taskId: string)
    requires Sound(t) && taskId in t.tasks && IsTerminalTask(t.tasks[taskId].state)
    ensures taskId in Run(t, events).tasks && Run(t, events).tasks[taskId].state == t.tasks[taskId].state
  {
    RunIsSafe(t, events);
    assert TaskMovesOn(t.tasks[taskId], Run(t, events).tasks[taskId]);
    TerminalTasksAbsorb(t.tasks[taskId].state, Run(t, events).tasks[taskId].state);
  }

  /** Repeating an intent changes nothing. */
  lemma RepeatedIntentChangesNothing(t: Tables, taskId: string, key: string, first: string, second: string,
                                     threadA: Option<string>, threadB: Option<string>)
    requires Sound(t)
    ensures var once := Intend(t, taskId, key, first, threadA);
      IntentRefusal(t, taskId, key, first).None? ==> Intend(once, taskId, key, second, threadB) == once
  {
  }
}
