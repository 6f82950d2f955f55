/** Dispatch intents, host receipts and the outbox as a transition system over the store tables. */
module Dispatch {
  import opened Common
  import opened States
  import opened StoreRows
  import opened ResourceObservation
  import opened ResourceClaims

  datatype Receipt = Receipt(
    key: Option<string>, adapter: string, status: string, threadId: Option<string>, evidence: Evidence, receivedAt: int)

  datatype SignalKind = TaskReadySignal | LaneDispatchIntent | LaneAck | LaneHandoff | WorkUnitDelegated | WorkUnitPulse | Custom(name: string)

  datatype Signal = Signal(runId: string, scopeId: string, kind: SignalKind)

  /** Attempts are keyed by their dispatch key and outbox rows by their idempotency key, both unique
      columns; `receiptIndex` is the unique index on adapter and dispatch key. */
  datatype Tables = Tables(
    tasks: map<string, TaskRow>,
    units: map<string, UnitRow>,
    attempts: map<string, Attempt>,
    unitAttempts: map<string, UnitAttempt>,
    outbox: map<string, OutboxRow>,
    receipts: map<string, Receipt>,
    receiptIndex: map<(string, string), string>,
    claims: seq<Claim>,
    signals: seq<Signal>)

  datatype Incoming = Incoming(
    id: string, key: Option<string>, adapter: string, status: string, threadId: Option<string>,
    receivedAt: Option<int>, observation: RawObservation)

  /* ---------------------------------------------------------- receipt statuses */

  function Lower(s: string): string {
    seq(|s|, i requires 0 <= i < |s| => if 'A' <= s[i] <= 'Z' then (s[i] as int + 32) as char else s[i])
  }

  const PENDING: set<string> := {"pending", "queued", "submitted", "accepted_pending"}

  const ACTIVE: set<string> := {"active", "acknowledged", "accepted", "running"}

  const FAILED: set<string> := {"failed", "error", "lost"}

  const SUCCEEDED: set<string> := {"completed", "succeeded", "success", "closed", "handoff_ready"}

  predicate CanProgress(known: string, incoming: string) {
    && Lower(incoming) != Lower(known)
    && ((Lower(known) in PENDING && Lower(incoming) !in PENDING)
        || (Lower(known) in ACTIVE && Lower(incoming) in FAILED + SUCCEEDED))
  }

  function NextAttemptState(status: string, current: AttemptState): AttemptState {
    var s := Lower(status);
    if s in PENDING then current
    else if s in FAILED then if s == "lost" then Lost else AttemptFailed
    else if s in SUCCEEDED then if s == "handoff_ready" then HandoffReady else Closed
    else if current in {Dispatched, Acknowledged, AttemptCreated} then AttemptActive
    else current
  }

  function NextUnitAttemptState(status: string, current: UnitAttemptState): UnitAttemptState {
    var s := Lower(status);
    if s in PENDING || s == "unresolved" then current
    else if s in FAILED then UnitAttemptFailed
    else if s in SUCCEEDED then UnitAttemptClosed
    else if current in {UnitAttemptCreated, Delegated} then UnitAttemptActive
    else current
  }

  /** The state a receipt asks of the work unit, if any. */
  function NextUnitState(status: string, next: UnitAttemptState): Option<UnitState> {
    var s := Lower(status);
    if s in PENDING || s == "unresolved" then None
    else if s in FAILED then Some(UnitFailed)
    else if s in SUCCEEDED then Some(UnitActive)
    else if next.UnitAttemptActive? then Some(UnitActive)
    else None
  }

  /* ------------------------------------------------------------------ receipts */

  /** The row of the same id, or else of the same adapter and dispatch key. */
  function FindReceipt(t: Tables, r: Incoming): Option<string> {
    if r.id in t.receipts then Some(r.id)
    else if IsGiven(r.key) && (r.adapter, r.key.value) in t.receiptIndex then Some(t.receiptIndex[(r.adapter, r.key.value)])
    else None
  }

  predicate MakesProgress(row: Receipt, r: Incoming) {
    || CanProgress(row.status, r.status)
    || (!row.evidence.isResolved && Normalize(r.observation).isResolved)
    || (IsGiven(r.threadId) && !IsGiven(row.threadId))
  }

  function InsertedReceipt(r: Incoming, at: int): Receipt {
    Receipt(r.key, r.adapter, r.status, r.threadId, EvidenceOf(Normalize(r.observation)), at)
  }

  function UpdatedReceipt(row: Receipt, r: Incoming, at: int): Receipt {
    Receipt(row.key, row.adapter, r.status, Coalesce(r.threadId, row.threadId),
            MergedEvidence(row.evidence, EvidenceOf(Normalize(r.observation))), at)
  }

  /** Is the insert refused by the unique index although no row was found?  Only for an empty key. */
  predicate CollidesUnfound(t: Tables, r: Incoming) {
    r.key.Some? && (r.adapter, r.key.value) in t.receiptIndex
  }

  /** The receipt row the ingestion leaves behind and works on; None when nothing is to be done. */
  function StoredReceipt(t: Tables, r: Incoming, at: int): Option<(string, Receipt)> {
    match FindReceipt(t, r)
    case None => if CollidesUnfound(t, r) then None else Some((r.id, InsertedReceipt(r, at)))
    case Some(id) =>
      if id in t.receipts && MakesProgress(t.receipts[id], r) then Some((id, UpdatedReceipt(t.receipts[id], r, at))) else None
  }

  function WithReceipt(t: Tables, id: string, row: Receipt): Tables {
    t.(receipts := t.receipts[id := row],
       receiptIndex := if row.key.Some? then t.receiptIndex[(row.adapter, row.key.value) := id] else t.receiptIndex)
  }

  /* ------------------------------------------------------------ what it advances */

  predicate IsEnded(s: AttemptState) {
    s in {HandoffReady, Closed, AttemptFailed, Lost}
  }

  function AdvancedAttempt(a: Attempt, next: AttemptState, receiptId: string, thread: Option<string>, at: int): Attempt {
    a.(state := next, receiptId := Some(receiptId), threadId := Coalesce(a.threadId, thread),
       startedAt := Coalesce(a.startedAt, if next in {AttemptActive, HandoffReady, Closed} then Some(at) else None),
       endedAt := if IsEnded(next) then Some(at) else None)
  }

  function AdvancedTaskState(state: TaskState, next: AttemptState): TaskState {
    if next.AttemptActive? && state in {Dispatching, Ready, Proposed} then Active
    else if next.HandoffReady? && state in {Dispatching, Active, Waiting} then Verifying
    else state
  }

  function AcknowledgedOutbox(outbox: map<string, OutboxRow>, key: string): map<string, OutboxRow> {
    if key in outbox && (outbox[key].state.Pending? || outbox[key].state.Emitted?)
    then outbox[key := outbox[key].(state := OutboxAcknowledged)]
    else outbox
  }

  function AttemptSignals(next: AttemptState, runId: string, taskId: string): seq<Signal> {
    if next.AttemptActive? then [Signal(runId, taskId, LaneAck)]
    else if next.HandoffReady? then [Signal(runId, taskId, LaneHandoff)]
    else []
  }

  function AttemptReason(next: AttemptState): string {
    if next.Closed? then "attempt-closed" else if next.Lost? then "attempt-lost" else "attempt-failed"
  }

  /** Move an attempt to its next state, and its task, claims, signals and outbox row with it. */
  function AdvanceAttempt(t: Tables, key: string, next: AttemptState, receiptId: string, thread: Option<string>, at: int): Tables
    requires key in t.attempts
  {
    var a := t.attempts[key];
    var moved := t.(attempts := t.attempts[key := AdvancedAttempt(a, next, receiptId, thread, at)],
                    outbox := AcknowledgedOutbox(t.outbox, key));
    if a.taskId !in t.tasks then moved
    else
      var task := t.tasks[a.taskId];
      moved.(
        claims := if next in {Closed, AttemptFailed, Lost}
          then Released(t.claims, task.runId, true, a.taskId, None, AttemptReason(next), ClaimReleased) else t.claims,
        tasks := t.tasks[a.taskId := task.(state := AdvancedTaskState(task.state, next))],
        signals := t.signals + AttemptSignals(next, task.runId, a.taskId))
  }

  function AdvancedUnitAttempt(a: UnitAttempt, next: UnitAttemptState, receiptId: string, at: int): UnitAttempt {
    a.(state := next, receiptId := Some(receiptId),
       startedAt := Coalesce(a.startedAt, if next in {UnitAttemptActive, UnitAttemptClosed} then Some(at) else None),
       endedAt := if next in {UnitAttemptClosed, UnitAttemptFailed} then Coalesce(a.endedAt, Some(at)) else a.endedAt)
  }

  function AdvancedUnitState(state: UnitState, asked: Option<UnitState>): UnitState {
    if asked.Some? && state in {UnitProposed, UnitReady, UnitDelegated, UnitActive} then asked.value else state
  }

  function RunOf(t: Tables, unitId: string): Option<string> {
    if unitId in t.units && t.units[unitId].taskId in t.tasks then Some(t.tasks[t.units[unitId].taskId].runId) else None
  }

  function AdvanceUnitAttempt(t: Tables, key: string, next: UnitAttemptState, asked: Option<UnitState>, receiptId: string, at: int): Tables
    requires key in t.unitAttempts
  {
    var a := t.unitAttempts[key];
    var moved := t.(unitAttempts := t.unitAttempts[key := AdvancedUnitAttempt(a, next, receiptId, at)],
                    outbox := AcknowledgedOutbox(t.outbox, key));
    if a.unitId !in t.units then moved
    else
      var unit := t.units[a.unitId];
      var runId := RunOf(t, a.unitId);
      moved.(
        units := t.units[a.unitId := unit.(state := AdvancedUnitState(unit.state, asked))],
        signals := t.signals + if next.UnitAttemptActive? && runId.Some? then [Signal(runId.value, a.unitId, WorkUnitPulse)] else [])
  }

  /** The row's own key, or else the key the receipt came with. */
  function EffectiveKey(row: Receipt, r: Incoming): Option<string> {
    Either(row.key, r.key)
  }

  function Advance(t: Tables, id: string, row: Receipt, r: Incoming, at: int): Tables
  {
    var key := EffectiveKey(row, r);
    if !IsGiven(key) then t
    else if key.value in t.attempts then
      var next := NextAttemptState(row.status, t.attempts[key.value].state);
      AdvanceAttempt(t, key.value, next, id, Either(r.threadId, row.threadId), at)
    else if key.value in t.unitAttempts then
      var next := NextUnitAttemptState(row.status, t.unitAttempts[key.value].state);
      AdvanceUnitAttempt(t, key.value, next, NextUnitState(row.status, next), id, at)
    else t
  }

  function Ingest(t: Tables, r: Incoming, now: int): Tables
  {
    var at := if r.receivedAt.Some? then r.receivedAt.value else now;
    match StoredReceipt(t, r, at)
    case None => t
    case Some((id, row)) => Advance(WithReceipt(t, id, row), id, row, r, at)
  }

  /** What the caller of an ingestion is told: the receipt, its key, and the attempt of that key. */
  datatype Reply = Reply(receiptId: string, key: Option<string>, attemptId: Option<string>, target: Option<TargetType>, status: string)

  /** The receipt the reply is about: the one stored, or else the one found, or else the one that came. */
  function RepliedReceipt(t: Tables, r: Incoming, at: int): (string, Receipt) {
    var stored, found := StoredReceipt(t, r, at), FindReceipt(t, r);
    if stored.Some? then stored.value
    else if found.Some? && found.value in t.receipts then (found.value, t.receipts[found.value])
    else (r.id, InsertedReceipt(r, at))
  }

  function ReplyTo(attempts: map<string, Attempt>, unitAttempts: map<string, UnitAttempt>, id: string, row: Receipt, r: Incoming): Reply {
    var key := EffectiveKey(row, r);
    var onTask := IsGiven(key) && key.value in attempts;
    var onUnit := !onTask && IsGiven(key) && key.value in unitAttempts;
    Reply(id, key,
          if onTask then Some(attempts[key.value].id) else if onUnit then Some(unitAttempts[key.value].id) else None,
          if onTask then Some(TaskTarget) else if onUnit then Some(UnitTarget) else None,
          if row.status == "" then r.status else row.status)
  }

  function ReplyOf(t: Tables, r: Incoming, now: int): Reply {
    var at := if r.receivedAt.Some? then r.receivedAt.value else now;
    var (id, row) := RepliedReceipt(t, r, at);
    ReplyTo(t.attempts, t.unitAttempts, id, row, r)
  }

  /* ------------------------------------------------------------------- intents */

  /** Whose attempt it is, and which one. */
  datatype Slot = Slot(owner: string, no: nat)

  function TaskSlots(attempts: map<string, Attempt>): map<string, Slot> {
    map k | k in attempts :: Slot(attempts[k].taskId, attempts[k].attemptNo)
  }

  function UnitSlots(unitAttempts: map<string, UnitAttempt>): map<string, Slot> {
    map k | k in unitAttempts :: Slot(unitAttempts[k].unitId, unitAttempts[k].attemptNo)
  }

  function Numbers(slots: map<string, Slot>, owner: string): set<nat> {
    set k | k in slots && slots[k].owner == owner :: slots[k].no
  }

  datatype Refusal = MissingIdentity | UnknownTask | UnknownUnit | KeyOwnedElsewhere | OutboxKeyTaken | AttemptIdTaken | NotDispatchable | NoAttempt

  /** Why a new task intent would be refused, checked in this order. */
  function IntentRefusal(t: Tables, taskId: string, key: string, attemptId: string): Option<Refusal> {
    if taskId == "" || key == "" then Some(MissingIdentity)
    else if taskId !in t.tasks then Some(UnknownTask)
    else if key in t.attempts then if t.attempts[key].taskId != taskId then Some(KeyOwnedElsewhere) else None
    else if t.tasks[taskId].state !in {Proposed, Ready, Dispatching} then Some(NotDispatchable)
    else if exists k | k in t.attempts :: t.attempts[k].id == attemptId then Some(AttemptIdTaken)
    else if key in t.outbox then Some(OutboxKeyTaken)
    else None
  }

  /** The signal of a proposed task that is made ready on its way. */
  function Promoted(task: TaskRow, taskId: string): seq<Signal> {
    if task.state.Proposed? then [Signal(task.runId, taskId, TaskReadySignal)] else []
  }

  /** A new attempt of the task, numbered after its last one, with its outbox row; a task that was only
      proposed is made ready first, with a signal of its own. */
  ghost function Inserted(t: Tables, taskId: string, key: string, attemptId: string, thread: Option<string>): Tables
    requires taskId in t.tasks
  {
    var task := t.tasks[taskId];
    var no := Largest(Numbers(TaskSlots(t.attempts), taskId)) + 1;
    t.(tasks := t.tasks[taskId := task.(state := Dispatching)],
       attempts := t.attempts[key := Attempt(attemptId, taskId, no, Dispatched, thread, None, None, None)],
       outbox := t.outbox[key := OutboxRow(task.runId, TaskTarget, taskId, attemptId, Pending, 0)],
       signals := t.signals + Promoted(task, taskId) + [Signal(task.runId, taskId, LaneDispatchIntent)])
  }

  ghost function Intend(t: Tables, taskId: string, key: string, attemptId: string, thread: Option<string>): Tables {
    if IntentRefusal(t, taskId, key, attemptId).Some? || key in t.attempts then t
    else Inserted(t, taskId, key, attemptId, thread)
  }

  /** Why no attempt of a work unit would be begun, unless its key has one. */
  function BeginRefusal(t: Tables, unitId: string, key: string, attemptId: string): Option<Refusal> {
    if key in t.unitAttempts then None
    else if unitId !in t.units then Some(UnknownUnit)
    else if exists k | k in t.unitAttempts :: t.unitAttempts[k].id == attemptId then Some(AttemptIdTaken)
    else None
  }

  /** A new attempt of a work unit, numbered after its last one. */
  ghost function BeginUnit(t: Tables, unitId: string, key: string, attemptId: string): Tables {
    if BeginRefusal(t, unitId, key, attemptId).Some? || key in t.unitAttempts then t
    else
      var no := Largest(Numbers(UnitSlots(t.unitAttempts), unitId)) + 1;
      t.(unitAttempts := t.unitAttempts[key := UnitAttempt(attemptId, unitId, no, UnitAttemptCreated, None, None, None)])
  }

  function UnitIntentRefusal(t: Tables, unitId: string, key: string, attemptId: string): Option<Refusal> {
    if unitId == "" || key == "" then Some(MissingIdentity)
    else if unitId !in t.units || t.units[unitId].taskId !in t.tasks then Some(UnknownTask)
    else if key in t.unitAttempts then if t.unitAttempts[key].unitId != unitId then Some(KeyOwnedElsewhere) else None
    else if exists k | k in t.unitAttempts :: t.unitAttempts[k].id == attemptId && t.unitAttempts[k].unitId == unitId then None
    else Some(NoAttempt)
  }

  function IntendUnit(t: Tables, unitId: string, key: string, attemptId: string): Tables {
    if UnitIntentRefusal(t, unitId, key, attemptId).Some? || key in t.outbox then t
    else
      var runId := t.tasks[t.units[unitId].taskId].runId;
      t.(outbox := t.outbox[key := OutboxRow(runId, UnitTarget, unitId, attemptId, Pending, 0)],
         signals := t.signals + [Signal(runId, unitId, WorkUnitDelegated)])
  }

  function MarkEmitted(t: Tables, key: string): Tables {
    if key in t.outbox && (t.outbox[key].state.Pending? || t.outbox[key].state.Emitted?)
    then t.(outbox := t.outbox[key := t.outbox[key].(state := Emitted, emitCount := t.outbox[key].emitCount + 1)])
    else t
  }

  /* ------------------------------------------------------------ status updates */

  function TaskReason(state: TaskState): string {
    if state.Blocked? then "task-blocked" else if state.Completed? then "task-completed"
    else if state.Superseded? then "task-superseded" else "task-cancelled"
  }

  function UnitReason(state: UnitState): string {
    if state.UnitBlocked? then "work-unit-blocked" else if state.UnitCompleted? then "work-unit-completed"
    else if state.UnitFailed? then "work-unit-failed" else "work-unit-cancelled"
  }

  function SetTask(t: Tables, taskId: string, state: TaskState, signal: Option<string>): Tables {
    if taskId !in t.tasks || !MayMoveTask(t.tasks[taskId].state, state) then t
    else
      var task := t.tasks[taskId];
      t.(tasks := t.tasks[taskId := task.(state := state)],
         claims := if state in {Blocked, Completed, Superseded, Cancelled}
           then Released(t.claims, task.runId, true, taskId, None, TaskReason(state), ClaimReleased) else t.claims,
         signals := t.signals + if IsGiven(signal) then [Signal(task.runId, taskId, Custom(signal.value))] else [])
  }

  function SetUnit(t: Tables, unitId: string, state: UnitState, signal: Option<string>): Tables {
    if unitId !in t.units || !MayMoveUnit(t.units[unitId].state, state) then t
    else
      var unit := t.units[unitId];
      var runId := RunOf(t, unitId);
      t.(units := t.units[unitId := unit.(state := state)],
         claims := if state in {UnitBlocked, UnitCompleted, UnitFailed, UnitCancelled} && runId.Some?
           then Released(t.claims, runId.value, false, unitId, None, UnitReason(state), ClaimReleased) else t.claims,
         signals := t.signals + if IsGiven(signal) && runId.Some? then [Signal(runId.value, unitId, Custom(signal.value))] else [])
  }

  datatype Event =
    | IntendEvent(taskId: string, key: string, attemptId: string, thread: Option<string>)
    | BeginUnitEvent(unitId: string, key: string, attemptId: string)
    | IntendUnitEvent(unitId: string, key: string, attemptId: string)
    | IngestEvent(receipt: Incoming, now: int)
    | EmitEvent(key: string)
    | SetTaskEvent(taskId: string, taskState: TaskState, signal: Option<string>)
    | SetUnitEvent(unitId: string, unitState: UnitState, signal: Option<string>)

  ghost function Step(t: Tables, e: Event): Tables
  {
    match e
    case IntendEvent(taskId, key, attemptId, thread) => Intend(t, taskId, key, attemptId, thread)
    case BeginUnitEvent(unitId, key, attemptId) => BeginUnit(t, unitId, key, attemptId)
    case IntendUnitEvent(unitId, key, attemptId) => IntendUnit(t, unitId, key, attemptId)
    case IngestEvent(r, now) => Ingest(t, r, now)
    case EmitEvent(key) => MarkEmitted(t, key)
    case SetTaskEvent(taskId, state, signal) => SetTask(t, taskId, state, signal)
    case SetUnitEvent(unitId, state, signal) => SetUnit(t, unitId, state, signal)
  }
}
