/** Rows of the store's scheduling tables. */
module StoreRows {
  import opened Common
  import opened States

  datatype TaskRow = TaskRow(runId: string, state: TaskState)

  datatype UnitRow = UnitRow(taskId: string, state: UnitState)

  datatype AttemptState =
    | AttemptCreated | Dispatched | Acknowledged | AttemptActive
    | HandoffReady | Lost | AttemptFailed | Closed

  datatype Attempt = Attempt(
    id: string, taskId: string, attemptNo: nat, state: AttemptState, threadId: Option<string>,
    receiptId: Option<string>, startedAt: Option<int>, endedAt: Option<int>)

  datatype UnitAttemptState =
    | UnitAttemptCreated | Delegated | UnitAttemptActive | UnitAttemptBlocked
    | UnitAttemptCompleted | UnitAttemptFailed | UnitAttemptClosed

  datatype UnitAttempt = UnitAttempt(
    id: string, unitId: string, attemptNo: nat, state: UnitAttemptState,
    receiptId: Option<string>, startedAt: Option<int>, endedAt: Option<int>)

  datatype OutboxState = Pending | Emitted | OutboxAcknowledged | OutboxReconciled | OutboxFailed

  datatype TargetType = TaskTarget | UnitTarget

  datatype OutboxRow = OutboxRow(
    runId: string, targetType: TargetType, targetId: string, attemptId: string, state: OutboxState, emitCount: nat)

  datatype LeaseState = LeaseActive | LeaseExpired | LeaseReleased

  datatype Lease = Lease(
    scope: TargetType, scopeId: string, ownerId: string, writeSet: set<string>, state: LeaseState,
    acquiredAt: int, expiresAt: int, releasedAt: Option<int>)

  /** A top-level claim names no lane; a lane claim names one. */
  datatype ClaimScope = TopLevel | Lane(laneId: string)

  datatype ClaimState = ClaimActive | ClaimReleased | ClaimReconciled

  datatype Claim = Claim(
    runId: string, scope: ClaimScope, entityId: string, slots: nat, state: ClaimState, reason: Option<string>)
}
