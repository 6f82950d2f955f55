/** Claim batches, releases and the dispatch operations together, over one store: what all of them keep
    in any order. */
module StoreRuns {
  import opened Common
  import opened States
  import opened StoreRows
  import opened ResourceObservation
  import opened ResourceClaims
  import opened Dispatch
  import opened DispatchRuns

  datatype StoreEvent =
    | Claiming(runs: set<string>, runId: string, scope: ClaimScope, batch: seq<Candidate>, limits: Limits)
    | Releasing(runId: string, topLevel: bool, entityId: string, lane: Option<string>, reason: string)
    | Dispatching(event: Event)

  ghost function StoreStep(t: Tables, e: StoreEvent): Tables {
    match e
    case Claiming(runs, runId, scope, batch, limits) =>
      if CanClaim(runs, t.tasks, t.units, t.claims, runId, scope, batch)
      then t.(claims := Granting(t.claims, runId, scope, batch, limits)) else t
    case Releasing(runId, topLevel, entityId, lane, reason) =>
      t.(claims := Released(t.claims, runId, topLevel, entityId, lane, reason, ClaimReleased))
    case Dispatching(event) => Step(t, event)
  }

  ghost function StoreRun(t: Tables, events: seq<StoreEvent>): Tables
    decreases |events|
  {
    if events == [] then t else StoreRun(StoreStep(t, events[0]), events[1..])
  }

  /** The dispatch tables are sound, no entity has two active claims, and every claim is in place. */
  ghost predicate StoreSound(t: Tables) {
    Sound(t) && UniqueActive(t.claims) && InPlace(t.tasks, t.units, t.claims)
  }

  /* ------------------------------------------------------ what dispatching does to claims */

  /** The claims are as before but for those of one entity that were released. */
  ghost predicate ReleasedAtMost(before: seq<Claim>, after: seq<Claim>) {
    || after == before
    || exists runId, topLevel, entityId, reason {:trigger Released(before, runId, topLevel, entityId, None, reason, ClaimReleased)} ::
         after == Released(before, runId, topLevel, entityId, None, reason, ClaimReleased)
  }

  lemma AttemptReleasesAtMost(t: Tables, key: string, next: AttemptState, id: string, thread: Option<string>, at: int)
    requires key in t.attempts
    ensures ReleasedAtMost(t.claims, AdvanceAttempt(t, key, next, id, thread, at).claims)
  {
  }

  lemma UnitAttemptKeepsClaims(t: Tables, key: string, next: UnitAttemptState, asked: Option<UnitState>, id: string, at: int)
    requires key in t.unitAttempts
    ensures AdvanceUnitAttempt(t, key, next, asked, id, at).claims == t.claims
  {
  }

  lemma ReceiptReleasesAtMost(t: Tables, r: Incoming, now: int)
    ensures ReleasedAtMost(t.claims, Ingest(t, r, now).claims)
  {
    var at := if r.receivedAt.Some? then r.receivedAt.value else now;
    var stored := StoredReceipt(t, r, at);
    if stored.Some? {
      var (id, row) := stored.value;
      var written, key := WithReceipt(t, id, row), EffectiveKey(row, r);
      if IsGiven(key) && key.value in t.attempts {
        AttemptReleasesAtMost(written, key.value, NextAttemptState(row.status, t.attempts[key.value].state), id, Either(r.threadId, row.threadId), at);
      } else if IsGiven(key) && key.value in t.unitAttempts {
        var next := NextUnitAttemptState(row.status, t.unitAttempts[key.value].state);
        UnitAttemptKeepsClaims(written, key.value, next, NextUnitState(row.status, next), id, at);
      }
    }
  }

  /** A dispatch operation claims nothing and releases one entity's claim at most. */
  lemma DispatchReleasesAtMost(t: Tables, e: Event)
    ensures ReleasedAtMost(t.claims, Step(t, e).claims)
  {
    match e {
      case IngestEvent(r, now) => ReceiptReleasesAtMost(t, r, now);
      case _ =>
    }
  }

  lemma ReleasedAtMostKeeps(tasks: map<string, TaskRow>, units: map<string, UnitRow>, before: seq<Claim>, after: seq<Claim>, pool: Pool)
    requires ReleasedAtMost(before, after) && UniqueActive(before) && InPlace(tasks, units, before)
    ensures UniqueActive(after) && InPlace(tasks, units, after) && Used(after, pool) <= Used(before, pool)
  {
    if after != before {
      var runId, topLevel, entityId, reason {:trigger Released(before, runId, topLevel, entityId, None, reason, ClaimReleased)} :|
        after == Released(before, runId, topLevel, entityId, None, reason, ClaimReleased);
      ReleaseKeepsUnique(before, runId, topLevel, entityId, None, reason, ClaimReleased);
      ReleaseKeepsInPlace(tasks, units, before, runId, topLevel, entityId, None, reason, ClaimReleased);
      ReleaseFreesExactly(before, runId, topLevel, entityId, None, reason, ClaimReleased, pool);
    }
  }

  /** Tasks keep their run and units their task, so what was in place stays in place. */
  lemma InPlaceMovesOn(tasks: map<string, TaskRow>, units: map<string, UnitRow>, claims: seq<Claim>,
                       tasks': map<string, TaskRow>, units': map<string, UnitRow>)
    requires InPlace(tasks, units, claims) && TasksMoveOn(tasks, tasks') && UnitsMoveOn(units, units')
    ensures InPlace(tasks', units', claims)
  {
  }

  /* ------------------------------------------------------------------------- over runs */

  /** No batch of the events is allowed more of the pool than the limit. */
  ghost predicate StoreCapped(events: seq<StoreEvent>, pool: Pool, limit: nat) {
    forall e | e in events && e.Claiming? :: Capped([ClaimBatch(e.runId, e.scope, e.batch, e.limits)], pool, limit)
  }

  lemma ClaimsDoNotMatter(t: Tables, claims: seq<Claim>)
    ensures Sound(t.(claims := claims)) <==> Sound(t)
    ensures MovesOn(t, t.(claims := claims))
  {
    Stays(t);
  }

  lemma ClaimingHolds(t: Tables, e: StoreEvent, pool: Pool, limit: nat)
    requires StoreSound(t) && e.Claiming? && StoreCapped([e], pool, limit)
    ensures var after := StoreStep(t, e);
      StoreSound(after) && MovesOn(t, after) && Used(after.claims, pool) <= Max(Used(t.claims, pool), limit)
  {
    assert e in [e];
    Stays(t);
    if CanClaim(e.runs, t.tasks, t.units, t.claims, e.runId, e.scope, e.batch) {
      var claimed := Granting(t.claims, e.runId, e.scope, e.batch, e.limits);
      ClaimStepKeepsCapacity(t.claims, ClaimBatch(e.runId, e.scope, e.batch, e.limits), pool, limit);
      GrantingKeepsInPlace(t.tasks, t.units, t.claims, e.runId, e.scope, e.batch, e.limits);
      ClaimsDoNotMatter(t, claimed);
    }
  }

  lemma ReleasingHolds(t: Tables, e: StoreEvent, pool: Pool)
    requires StoreSound(t) && e.Releasing?
    ensures var after := StoreStep(t, e);
      StoreSound(after) && MovesOn(t, after) && Used(after.claims, pool) <= Used(t.claims, pool)
  {
    ReleaseKeepsUnique(t.claims, e.runId, e.topLevel, e.entityId, e.lane, e.reason, ClaimReleased);
    ReleaseKeepsInPlace(t.tasks, t.units, t.claims, e.runId, e.topLevel, e.entityId, e.lane, e.reason, ClaimReleased);
    ReleaseFreesExactly(t.claims, e.runId, e.topLevel, e.entityId, e.lane, e.reason, ClaimReleased, pool);
    ClaimsDoNotMatter(t, Released(t.claims, e.runId, e.topLevel, e.entityId, e.lane, e.reason, ClaimReleased));
  }

  lemma DispatchingHolds(t: Tables, e: Event, pool: Pool)
    requires StoreSound(t)
    ensures var after := Step(t, e);
      StoreSound(after) && MovesOn(t, after) && Used(after.claims, pool) <= Used(t.claims, pool)
  {
    var after := Step(t, e);
    StepKeepsSound(t, e);
    StepMovesOn(t, e);
    DispatchReleasesAtMost(t, e);
    ReleasedAtMostKeeps(t.tasks, t.units, t.claims, after.claims, pool);
    InPlaceMovesOn(t.tasks, t.units, after.claims, after.tasks, after.units);
  }

  lemma StoreStepHolds(t: Tables, e: StoreEvent, pool: Pool, limit: nat)
    requires StoreSound(t) && StoreCapped([e], pool, limit)
    ensures var after := StoreStep(t, e);
      StoreSound(after) && MovesOn(t, after) && Used(after.claims, pool) <= Max(Used(t.claims, pool), limit)
  {
    match e {
      case Claiming(_, _, _, _, _) => ClaimingHolds(t, e, pool, limit);
      case Releasing(_, _, _, _, _) => ReleasingHolds(t, e, pool);
      case Dispatching(event) => DispatchingHolds(t, event, pool);
    }
  }

  /** Over every run of claim batches, releases, intents, receipts, emissions and status updates, in any
      order: the dispatch tables stay sound and move forward, no entity has two active claims, every claim
      stays with an entity of its run and lane, and no pool holds more than the larger of what it held and
      the largest limit a batch was given. */
  lemma {:induction false} StoreHoldsOverRuns(t: Tables, events: seq<StoreEvent>, pool: Pool, limit: nat)
    requires StoreSound(t) && StoreCapped(events, pool, limit)
    ensures var after := StoreRun(t, events);
      StoreSound(after) && MovesOn(t, after) && Used(after.claims, pool) <= Max(Used(t.claims, pool), limit)
    decreases |events|
  {
    if events == [] {
      Stays(t);
    } else {
      var next := StoreStep(t, events[0]);
      assert events[0] in events && forall e | e in events[1..] :: e in events;
      StoreStepHolds(t, events[0], pool, limit);
      StoreHoldsOverRuns(next, events[1..], pool, limit);
      MovesOnTransitive(t, next, StoreRun(next, events[1..]));
    }
  }
}
