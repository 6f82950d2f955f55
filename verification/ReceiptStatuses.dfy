/** The status of a stored receipt over time: how far along it is, and exactly when it falls back. */
module ReceiptStatuses {
  import opened Common
  import opened StoreRows
  import opened ResourceObservation
  import opened Dispatch
  import opened DispatchRuns
  import opened StatusWords

  /** Pending, under way, ended. */
  function Class(status: string): nat {
    var s := Lower(status);
    if s in PENDING then 0 else if s in FAILED + SUCCEEDED then 2 else 1
  }

  lemma ActiveIsUnderWay(status: string)
    requires Lower(status) in ACTIVE
    ensures Class(status) == 1
  {
    ActiveIsNotPending(Lower(status));
    ActiveIsNotEnded(Lower(status));
  }

  lemma ActiveIsNotPending(s: string)
    requires s in ACTIVE
    ensures s !in PENDING
  {
    assert |s| > 5 && (s[0] == 'a' || s[0] == 'r');
    assert s[0] == 'a' ==> s != "accepted_pending";
  }

  predicate BringsThread(row: Receipt, r: Incoming) {
    IsGiven(r.threadId) && !IsGiven(row.threadId)
  }

  predicate BringsEvidence(row: Receipt, r: Incoming) {
    !row.evidence.isResolved && Normalize(r.observation).isResolved
  }

  /** Progress of the status alone always raises the class. */
  lemma ProgressRaises(known: string, incoming: string)
    requires CanProgress(known, incoming)
    ensures Class(known) < Class(incoming)
  {
    if Lower(known) !in PENDING { ActiveIsUnderWay(known); }
  }

  /** The stored row after an ingestion. */
  lemma RowAfterIngest(t: Tables, r: Incoming, now: int, id: string)
    requires ReceiptsOk(t.receipts, t.receiptIndex) && id in t.receipts
    ensures var at := if r.receivedAt.Some? then r.receivedAt.value else now;
      var row, after := t.receipts[id], Ingest(t, r, now).receipts;
      && id in after
      && after[id] == if FindReceipt(t, r) == Some(id) && MakesProgress(row, r) then UpdatedReceipt(row, r, at) else row
  {
    var at := if r.receivedAt.Some? then r.receivedAt.value else now;
    var stored := StoredReceipt(t, r, at);
    if stored.Some? {
      var (key, row) := stored.value;
      AdvanceKeepsReceipts(WithReceipt(t, key, row), key, row, r, at);
    }
  }

  /** A receipt's status falls back exactly when a receipt for it, of an earlier class, brings the first
      thread id or the first resolved evidence: that is stored, and the status with it. */
  lemma StatusFallsExactly(t: Tables, r: Incoming, now: int, id: string)
    requires ReceiptsOk(t.receipts, t.receiptIndex) && id in t.receipts
    ensures var row, after := t.receipts[id], Ingest(t, r, now).receipts;
      && id in after
      && (Class(after[id].status) < Class(row.status) <==>
           && FindReceipt(t, r) == Some(id) && Class(r.status) < Class(row.status)
           && (BringsThread(row, r) || BringsEvidence(row, r)))
  {
    RowAfterIngest(t, r, now, id);
    if CanProgress(t.receipts[id].status, r.status) { ProgressRaises(t.receipts[id].status, r.status); }
  }

  /** A closed receipt without a thread id reads pending again after a pending one that names a thread. */
  lemma ClosedReadsPendingAgain(t: Tables, r: Incoming, now: int, id: string)
    requires ReceiptsOk(t.receipts, t.receiptIndex) && id in t.receipts
    requires t.receipts[id].status == "closed" && t.receipts[id].threadId.None?
    requires r.id == id && r.status == "pending" && r.threadId == Some("thread")
    ensures id in Ingest(t, r, now).receipts && Ingest(t, r, now).receipts[id].status == "pending"
  {
    RowAfterIngest(t, r, now, id);
    assert BringsThread(t.receipts[id], r);
  }

  /** A thread id is lost exactly when a receipt that is stored carries an empty one. */
  lemma ThreadIsErasedExactly(t: Tables, r: Incoming, now: int, id: string)
    requires ReceiptsOk(t.receipts, t.receiptIndex) && id in t.receipts && IsGiven(t.receipts[id].threadId)
    ensures id in Ingest(t, r, now).receipts
    ensures !IsGiven(Ingest(t, r, now).receipts[id].threadId) <==>
      FindReceipt(t, r) == Some(id) && MakesProgress(t.receipts[id], r) && r.threadId == Some("")
  {
    RowAfterIngest(t, r, now, id);
  }

  /* ---------------------------------------------------------------------- over runs */

  /** What is still to be learned about a receipt: its thread, its evidence. */
  function Gaps(row: Receipt): nat {
    (if IsGiven(row.threadId) then 0 else 1) + (if row.evidence.isResolved then 0 else 1)
  }

  /** A stored thread id is lost to an empty one. */
  predicate Erases(row: Receipt, after: Receipt) {
    IsGiven(row.threadId) && !IsGiven(after.threadId)
  }

  lemma OtherStepsKeepReceipts(t: Tables, e: Event)
    requires !e.IngestEvent?
    ensures Step(t, e).receipts == t.receipts
  {
    match e {
      case SetTaskEvent(taskId, state, signal) => SetTaskTouches(t, taskId, state, signal);
      case SetUnitEvent(unitId, state, signal) => SetUnitTouches(t, unitId, state, signal);
      case EmitEvent(key) => EmittingKeepsTargets(t, key);
      case _ =>
    }
  }

  function One(happens: bool): nat {
    if happens then 1 else 0
  }

  /** A step that lets the status fall fills a gap; only an erasure opens one. */
  lemma FallingFillsAGap(t: Tables, e: Event, id: string)
    requires Sound(t) && id in t.receipts
    ensures var row, after := t.receipts[id], Step(t, e).receipts;
      && id in after
      && One(Class(after[id].status) < Class(row.status)) + Gaps(after[id]) <= Gaps(row) + One(Erases(row, after[id]))
  {
    if e.IngestEvent? {
      RowAfterIngest(t, e.receipt, e.now, id);
      StatusFallsExactly(t, e.receipt, e.now, id);
      ObservedEvidenceIsOk(e.receipt.observation);
      MergedEvidenceIsOk(t.receipts[id].evidence, EvidenceOf(Normalize(e.receipt.observation)));
    } else {
      OtherStepsKeepReceipts(t, e);
    }
  }

  /** How often the status of a receipt falls back over a run. */
  ghost function Falls(t: Tables, events: seq<Event>, id: string): nat
    requires Sound(t) && id in t.receipts
    decreases |events|
  {
    if events == [] then 0
    else
      FallingFillsAGap(t, events[0], id);
      StepKeepsSound(t, events[0]);
      var next := Step(t, events[0]);
      One(Class(next.receipts[id].status) < Class(t.receipts[id].status)) + Falls(next, events[1..], id)
  }

  /** How often its thread id is erased. */
  ghost function Erasures(t: Tables, events: seq<Event>, id: string): nat
    requires Sound(t) && id in t.receipts
    decreases |events|
  {
    if events == [] then 0
    else
      FallingFillsAGap(t, events[0], id);
      StepKeepsSound(t, events[0]);
      var next := Step(t, events[0]);
      One(Erases(t.receipts[id], next.receipts[id])) + Erasures(next, events[1..], id)
  }

  /** Over every run a status falls back at most once for each thing to be learned, which is the thread,
      the evidence, and the thread again after each time it was erased. */
  lemma {:induction false} FallsAreBounded(t: Tables, events: seq<Event>, id: string)
    requires Sound(t) && id in t.receipts
    ensures var after := Run(t, events);
      && Sound(after) && id in after.receipts
      && Falls(t, events, id) + Gaps(after.receipts[id]) <= Gaps(t.receipts[id]) + Erasures(t, events, id)
      && (Falls(t, events, id) == 0 ==> Class(after.receipts[id].status) >= Class(t.receipts[id].status))
    decreases |events|
  {
    if events != [] {
      FallingFillsAGap(t, events[0], id);
      StepKeepsSound(t, events[0]);
      FallsAreBounded(Step(t, events[0]), events[1..], id);
    }
  }

  predicate NoEmptyThread(e: Event) {
    e.IngestEvent? ==> e.receipt.threadId != Some("")
  }

  lemma {:induction false} OnlyEmptyThreadsErase(t: Tables, events: seq<Event>, id: string)
    requires Sound(t) && id in t.receipts && forall e | e in events :: NoEmptyThread(e)
    ensures Erasures(t, events, id) == 0
    decreases |events|
  {
    if events != [] {
      var e := events[0];
      assert e in events && forall other | other in events[1..] :: other in events;
      FallingFillsAGap(t, e, id);
      StepKeepsSound(t, e);
      if e.IngestEvent? {
        if IsGiven(t.receipts[id].threadId) { ThreadIsErasedExactly(t, e.receipt, e.now, id); }
      } else {
        OtherStepsKeepReceipts(t, e);
      }
      OnlyEmptyThreadsErase(Step(t, e), events[1..], id);
    }
  }

  /** Where no receipt carries an empty thread id, a status falls back twice at most, and never once the
      thread and the evidence are known: pending, under way and ended then follow each other. */
  lemma KnownReceiptsOnlyRise(t: Tables, events: seq<Event>, id: string)
    requires Sound(t) && id in t.receipts && forall e | e in events :: NoEmptyThread(e)
    ensures Falls(t, events, id) <= 2
    ensures id in Run(t, events).receipts
    ensures Gaps(t.receipts[id]) == 0 ==> Class(Run(t, events).receipts[id].status) >= Class(t.receipts[id].status)
  {
    FallsAreBounded(t, events, id);
    OnlyEmptyThreadsErase(t, events, id);
  }

  /** A pending receipt that ends with an empty thread id forgets the thread it had. */
  lemma EmptyThreadErases(t: Tables, r: Incoming, now: int, id: string)
    requires ReceiptsOk(t.receipts, t.receiptIndex) && id in t.receipts
    requires t.receipts[id].status == "pending" && t.receipts[id].threadId == Some("thread")
    requires r.id == id && r.status == "closed" && r.threadId == Some("")
    ensures id in Ingest(t, r, now).receipts && Ingest(t, r, now).receipts[id].threadId == Some("")
  {
    RowAfterIngest(t, r, now, id);
    PendingMayClose();
  }

  lemma PendingMayClose()
    ensures CanProgress("pending", "closed")
  {
    assert Lower("pending") == "pending" && Lower("closed") == "closed";
    assert "closed" !in PENDING by { assert "closed"[0] == 'c' && forall p | p in PENDING :: p[0] != 'c'; }
  }
}
