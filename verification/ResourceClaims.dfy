/** The resource-claim table: batch claims under limits, occupancy and release. */
module ResourceClaims {
  import opened Common
  import opened States
  import opened StoreRows

  /** A set of active claims whose slots count together. */
  datatype Pool = TopLevelPool(runId: string) | LanesPool(runId: string) | LanePool(runId: string, laneId: string)

  predicate Counts(pool: Pool, c: Claim) {
    c.state.ClaimActive? && c.runId == pool.runId &&
    match pool
    case TopLevelPool(_) => c.scope.TopLevel?
    case LanesPool(_) => c.scope.Lane?
    case LanePool(_, lane) => c.scope == Lane(lane)
  }

  function Used(claims: seq<Claim>, pool: Pool): nat {
    if claims == [] then 0
    else
      var last := claims[|claims| - 1];
      Used(claims[..|claims| - 1], pool) + if Counts(pool, last) then last.slots else 0
  }

  predicate Names(c: Claim, runId: string, topLevel: bool, entityId: string) {
    c.state.ClaimActive? && c.runId == runId && c.scope.TopLevel? == topLevel && c.entityId == entityId
  }

  predicate HasActive(claims: seq<Claim>, runId: string, topLevel: bool, entityId: string) {
    exists i | 0 <= i < |claims| :: Names(claims[i], runId, topLevel, entityId)
  }

  ghost predicate Contend(a: Claim, b: Claim) {
    Names(a, b.runId, b.scope.TopLevel?, b.entityId) && b.state.ClaimActive?
  }

  /** At most one active claim per run, scope and entity. */
  ghost predicate UniqueActive(claims: seq<Claim>) {
    forall i, j | 0 <= i < j < |claims| :: !Contend(claims[i], claims[j])
  }

  datatype Limits = Limits(topLevel: nat, subagents: nat, lane: nat)

  datatype Candidate = Candidate(entityId: string, slots: nat)

  /** Would the candidate still be inside every limit of its scope? */
  predicate Fits(claims: seq<Claim>, runId: string, scope: ClaimScope, slots: nat, limits: Limits) {
    match scope
    case TopLevel => Used(claims, TopLevelPool(runId)) + slots <= limits.topLevel
    case Lane(lane) =>
      && Used(claims, LanesPool(runId)) + slots <= limits.subagents
      && Used(claims, LanePool(runId, lane)) + slots <= limits.lane
  }

  function NewClaim(runId: string, scope: ClaimScope, candidate: Candidate): Claim {
    Claim(runId, scope, candidate.entityId, candidate.slots, ClaimActive, None)
  }

  /** A candidate is passed over when it has an active claim or does not fit. */
  predicate PassesOver(claims: seq<Claim>, runId: string, scope: ClaimScope, c: Candidate, limits: Limits) {
    HasActive(claims, runId, scope.TopLevel?, c.entityId) || !Fits(claims, runId, scope, c.slots, limits)
  }

  /** Take the candidates in order and grant each one that is not passed over. */
  function Granting(claims: seq<Claim>, runId: string, scope: ClaimScope, batch: seq<Candidate>, limits: Limits): seq<Claim> {
    if batch == [] then claims
    else
      var before := Granting(claims, runId, scope, batch[..|batch| - 1], limits);
      var c := batch[|batch| - 1];
      if PassesOver(before, runId, scope, c, limits) then before
      else before + [NewClaim(runId, scope, c)]
  }

  lemma GrantingNext(claims: seq<Claim>, runId: string, scope: ClaimScope, batch: seq<Candidate>, c: Candidate, limits: Limits)
    ensures var now := Granting(claims, runId, scope, batch, limits);
      Granting(claims, runId, scope, batch + [c], limits)
      == if PassesOver(now, runId, scope, c, limits) then now else now + [NewClaim(runId, scope, c)]
  {
    assert (batch + [c])[..|batch|] == batch;
  }

  lemma {:induction false} UsedAppend(claims: seq<Claim>, c: Claim, pool: Pool)
    ensures Used(claims + [c], pool) == Used(claims, pool) + if Counts(pool, c) then c.slots else 0
  {
    assert (claims + [c])[..|claims|] == claims;
  }

  lemma {:induction false} UsedConcat(claims: seq<Claim>, more: seq<Claim>, pool: Pool)
    ensures Used(claims + more, pool) == Used(claims, pool) + Used(more, pool)
  {
    if more == [] {
      assert claims + more == claims;
    } else {
      var init := more[..|more| - 1];
      assert claims + more == (claims + init) + [more[|more| - 1]];
      UsedAppend(claims + init, more[|more| - 1], pool);
      UsedConcat(claims, init, pool);
    }
  }

  function Max(a: nat, b: nat): nat { if a > b then a else b }

  /** The pools a scope is limited by, with their limits. */
  ghost predicate Limited(pool: Pool, runId: string, scope: ClaimScope, limits: Limits, limit: nat) {
    match scope
    case TopLevel => pool == TopLevelPool(runId) && limit == limits.topLevel
    case Lane(lane) =>
      || (pool == LanesPool(runId) && limit == limits.subagents)
      || (pool == LanePool(runId, lane) && limit == limits.lane)
  }

  /** A batch only appends claims, and each pool's total ends at most at the larger of what it was
      and its limit. */
  lemma {:induction false} GrantingStaysWithinLimits(claims: seq<Claim>, runId: string, scope: ClaimScope, batch: seq<Candidate>,
                                                     limits: Limits, pool: Pool, limit: nat)
    requires Limited(pool, runId, scope, limits, limit)
    ensures var after := Granting(claims, runId, scope, batch, limits);
      && claims <= after
      && Used(claims, pool) <= Used(after, pool) <= Max(Used(claims, pool), limit)
  {
    if batch != [] {
      var before := Granting(claims, runId, scope, batch[..|batch| - 1], limits);
      GrantingStaysWithinLimits(claims, runId, scope, batch[..|batch| - 1], limits, pool, limit);
      UsedAppend(before, NewClaim(runId, scope, batch[|batch| - 1]), pool);
    }
  }

  /** The candidates a batch grants, in order. */
  function Granted(claims: seq<Claim>, runId: string, scope: ClaimScope, batch: seq<Candidate>, limits: Limits): seq<Candidate> {
    if batch == [] then []
    else
      var earlier := Granted(claims, runId, scope, batch[..|batch| - 1], limits);
      var before := Granting(claims, runId, scope, batch[..|batch| - 1], limits);
      var c := batch[|batch| - 1];
      if PassesOver(before, runId, scope, c, limits) then earlier
      else earlier + [c]
  }

  function TotalSlots(candidates: seq<Candidate>): nat {
    if candidates == [] then 0 else TotalSlots(candidates[..|candidates| - 1]) + candidates[|candidates| - 1].slots
  }

  lemma {:induction false} GrantedAreCandidates(claims: seq<Claim>, runId: string, scope: ClaimScope, batch: seq<Candidate>, limits: Limits)
    ensures forall c | c in Granted(claims, runId, scope, batch, limits) :: c in batch
  {
    if batch != [] {
      GrantedAreCandidates(claims, runId, scope, batch[..|batch| - 1], limits);
      assert batch == batch[..|batch| - 1] + [batch[|batch| - 1]];
    }
  }

  /** One new active claim for each granted candidate, in order. */
  lemma {:induction false} GrantedBecomeClaims(claims: seq<Claim>, runId: string, scope: ClaimScope, batch: seq<Candidate>, limits: Limits)
    ensures var after, granted := Granting(claims, runId, scope, batch, limits), Granted(claims, runId, scope, batch, limits);
      && |after| == |claims| + |granted| && after[..|claims|] == claims
      && forall i | 0 <= i < |granted| :: after[|claims| + i] == NewClaim(runId, scope, granted[i])
  {
    if batch != [] { GrantedBecomeClaims(claims, runId, scope, batch[..|batch| - 1], limits); }
  }

  lemma TotalSlotsAppend(candidates: seq<Candidate>, c: Candidate)
    ensures TotalSlots(candidates + [c]) == TotalSlots(candidates) + c.slots
  {
    assert (candidates + [c])[..|candidates|] == candidates;
  }

  /** Occupancy grows by exactly the slots granted, in each pool the scope counts in. */
  lemma {:induction false} OccupancyGrowsByGranted(claims: seq<Claim>, runId: string, scope: ClaimScope, batch: seq<Candidate>,
                                                   limits: Limits, pool: Pool)
    ensures Used(Granting(claims, runId, scope, batch, limits), pool) == Used(claims, pool)
      + if Counts(pool, NewClaim(runId, scope, Candidate("", 0))) then TotalSlots(Granted(claims, runId, scope, batch, limits)) else 0
  {
    if batch != [] {
      var init, c := batch[..|batch| - 1], batch[|batch| - 1];
      var before, earlier := Granting(claims, runId, scope, init, limits), Granted(claims, runId, scope, init, limits);
      OccupancyGrowsByGranted(claims, runId, scope, init, limits, pool);
      if PassesOver(before, runId, scope, c, limits) {
        assert Granting(claims, runId, scope, batch, limits) == before;
        assert Granted(claims, runId, scope, batch, limits) == earlier;
      } else {
        assert Granting(claims, runId, scope, batch, limits) == before + [NewClaim(runId, scope, c)];
        assert Granted(claims, runId, scope, batch, limits) == earlier + [c];
        UsedAppend(before, NewClaim(runId, scope, c), pool);
        TotalSlotsAppend(earlier, c);
      }
    }
  }

  /** A claim outside the scope's own pools is never touched: other pools keep their totals. */
  lemma {:induction false} GrantingKeepsOtherPools(claims: seq<Claim>, runId: string, scope: ClaimScope, batch: seq<Candidate>,
                                                   limits: Limits, pool: Pool)
    requires forall c :: !Counts(pool, NewClaim(runId, scope, c))
    ensures Used(Granting(claims, runId, scope, batch, limits), pool) == Used(claims, pool)
  {
    if batch != [] {
      var before := Granting(claims, runId, scope, batch[..|batch| - 1], limits);
      GrantingKeepsOtherPools(claims, runId, scope, batch[..|batch| - 1], limits, pool);
      UsedAppend(before, NewClaim(runId, scope, batch[|batch| - 1]), pool);
    }
  }

  lemma {:induction false} GrantingKeepsUnique(claims: seq<Claim>, runId: string, scope: ClaimScope, batch: seq<Candidate>, limits: Limits)
    requires UniqueActive(claims)
    ensures UniqueActive(Granting(claims, runId, scope, batch, limits))
  {
    if batch != [] {
      GrantingKeepsUnique(claims, runId, scope, batch[..|batch| - 1], limits);
    }
  }

  lemma {:induction false} GrantingOnlyAdds(claims: seq<Claim>, runId: string, scope: ClaimScope, batch: seq<Candidate>, limits: Limits, n: nat)
    requires n <= |batch|
    ensures var mid, after := Granting(claims, runId, scope, batch[..n], limits), Granting(claims, runId, scope, batch, limits);
      && mid <= after
      && (forall pool :: Used(mid, pool) <= Used(after, pool))
      && (forall e, top :: HasActive(mid, runId, top, e) ==> HasActive(after, runId, top, e))
    decreases |batch|
  {
    if n < |batch| {
      var before := Granting(claims, runId, scope, batch[..|batch| - 1], limits);
      GrantingOnlyAdds(claims, runId, scope, batch[..|batch| - 1], limits, n);
      assert batch[..|batch| - 1][..n] == batch[..n];
      forall pool ensures Used(before, pool) <= Used(before + [NewClaim(runId, scope, batch[|batch| - 1])], pool) {
        UsedAppend(before, NewClaim(runId, scope, batch[|batch| - 1]), pool);
      }
    } else {
      assert batch[..n] == batch;
    }
  }

  /** Greedy-maximal: a candidate left without a claim would not fit at the end either. */
  lemma {:induction false} GrantingIsMaximal(claims: seq<Claim>, runId: string, scope: ClaimScope, batch: seq<Candidate>, limits: Limits, i: nat)
    requires i < |batch|
    ensures var after := Granting(claims, runId, scope, batch, limits);
      HasActive(after, runId, scope.TopLevel?, batch[i].entityId) || !Fits(after, runId, scope, batch[i].slots, limits)
  {
    var mid := Granting(claims, runId, scope, batch[..i + 1], limits);
    var before := Granting(claims, runId, scope, batch[..i], limits);
    assert batch[..i + 1][..i] == batch[..i];
    var claim := NewClaim(runId, scope, batch[i]);
    if mid == before + [claim] {
      assert Names(mid[|before|], runId, scope.TopLevel?, batch[i].entityId);
    }
    GrantingOnlyAdds(claims, runId, scope, batch, limits, i + 1);
  }

  /** The entity belongs to the run, and to the lane for a lane claim. */
  predicate Belongs(tasks: map<string, TaskRow>, units: map<string, UnitRow>, runId: string, scope: ClaimScope, entityId: string) {
    match scope
    case TopLevel => entityId in tasks && tasks[entityId].runId == runId
    case Lane(lane) =>
      && entityId in units && units[entityId].taskId == lane
      && lane in tasks && tasks[lane].runId == runId
  }

  /** Every claim was made for an entity of its run, under its own lane. */
  ghost predicate InPlace(tasks: map<string, TaskRow>, units: map<string, UnitRow>, claims: seq<Claim>) {
    forall i | 0 <= i < |claims| :: Belongs(tasks, units, claims[i].runId, claims[i].scope, claims[i].entityId)
  }

  /** Every candidate belongs where it claims, or already has an active claim. */
  ghost predicate AllSettled(tasks: map<string, TaskRow>, units: map<string, UnitRow>, claims: seq<Claim>,
                             runId: string, scope: ClaimScope, batch: seq<Candidate>) {
    forall c | c in batch :: Belongs(tasks, units, runId, scope, c.entityId) || HasActive(claims, runId, scope.TopLevel?, c.entityId)
  }

  /** A batch whose candidates are settled leaves every claim in place. */
  lemma {:induction false} GrantingKeepsInPlace(tasks: map<string, TaskRow>, units: map<string, UnitRow>, claims: seq<Claim>,
                                                runId: string, scope: ClaimScope, batch: seq<Candidate>, limits: Limits)
    requires InPlace(tasks, units, claims) && AllSettled(tasks, units, claims, runId, scope, batch)
    ensures InPlace(tasks, units, Granting(claims, runId, scope, batch, limits))
  {
    if batch != [] {
      var init, c := batch[..|batch| - 1], batch[|batch| - 1];
      assert c in batch && forall other | other in init :: other in batch;
      GrantingKeepsInPlace(tasks, units, claims, runId, scope, init, limits);
      GrantingOnlyAdds(claims, runId, scope, init, limits, 0);
      assert Granting(claims, runId, scope, init[..0], limits) == claims;
    }
  }

  /** An entity has an active claim after a batch only if it had one or is a candidate. */
  lemma {:induction false} GrantingActivates(claims: seq<Claim>, runId: string, scope: ClaimScope, batch: seq<Candidate>,
                                             limits: Limits, e: string)
    ensures HasActive(Granting(claims, runId, scope, batch, limits), runId, scope.TopLevel?, e) ==>
      HasActive(claims, runId, scope.TopLevel?, e) || exists c | c in batch :: c.entityId == e
  {
    if batch != [] {
      var init, c := batch[..|batch| - 1], batch[|batch| - 1];
      assert c in batch && forall other | other in init :: other in batch;
      GrantingActivates(claims, runId, scope, init, limits, e);
      var before, after := Granting(claims, runId, scope, init, limits), Granting(claims, runId, scope, batch, limits);
      if HasActive(after, runId, scope.TopLevel?, e) && c.entityId != e {
        var i :| 0 <= i < |after| && Names(after[i], runId, scope.TopLevel?, e);
        assert i < |before| && before[i] == after[i];
      }
    }
  }

  /* ---------------------------------------------------------------- release */

  predicate IsReleased(c: Claim, runId: string, topLevel: bool, entityId: string, lane: Option<string>) {
    Names(c, runId, topLevel, entityId) && (lane.Some? ==> c.scope == Lane(lane.value))
  }

  function ReleasedRow(c: Claim, runId: string, topLevel: bool, entityId: string, lane: Option<string>,
                       reason: string, state: ClaimState): Claim {
    if IsReleased(c, runId, topLevel, entityId, lane) then c.(state := state, reason := Some(reason)) else c
  }

  function Released(claims: seq<Claim>, runId: string, topLevel: bool, entityId: string, lane: Option<string>,
                    reason: string, state: ClaimState): seq<Claim> {
    seq(|claims|, i requires 0 <= i < |claims| => ReleasedRow(claims[i], runId, topLevel, entityId, lane, reason, state))
  }

  /** The slots a release frees in a pool. */
  function Freed(claims: seq<Claim>, runId: string, topLevel: bool, entityId: string, lane: Option<string>, pool: Pool): nat {
    if claims == [] then 0
    else
      var last := claims[|claims| - 1];
      Freed(claims[..|claims| - 1], runId, topLevel, entityId, lane, pool)
      + if IsReleased(last, runId, topLevel, entityId, lane) && Counts(pool, last) then last.slots else 0
  }

  /** Occupancy shrinks by exactly the released slots. */
  lemma {:induction false} ReleaseFreesExactly(claims: seq<Claim>, runId: string, topLevel: bool, entityId: string, lane: Option<string>,
                                               reason: string, state: ClaimState, pool: Pool)
    requires !state.ClaimActive?
    ensures Used(Released(claims, runId, topLevel, entityId, lane, reason, state), pool)
      + Freed(claims, runId, topLevel, entityId, lane, pool) == Used(claims, pool)
  {
    if claims != [] {
      var init, last := claims[..|claims| - 1], claims[|claims| - 1];
      var released := ReleasedRow(last, runId, topLevel, entityId, lane, reason, state);
      var before := Released(init, runId, topLevel, entityId, lane, reason, state);
      ReleaseFreesExactly(init, runId, topLevel, entityId, lane, reason, state, pool);
      assert Released(claims, runId, topLevel, entityId, lane, reason, state) == before + [released];
      UsedAppend(before, released, pool);
      assert Counts(pool, released) <==> Counts(pool, last) && !IsReleased(last, runId, topLevel, entityId, lane);
    }
  }

  /** With unique active claims a release changes one row at most. */
  lemma ReleaseIsOneUpdate(claims: seq<Claim>, i: nat, runId: string, topLevel: bool, entityId: string, lane: Option<string>,
                           reason: string, state: ClaimState)
    requires UniqueActive(claims) && i < |claims| && IsReleased(claims[i], runId, topLevel, entityId, lane)
    ensures Released(claims, runId, topLevel, entityId, lane, reason, state)
      == claims[i := claims[i].(state := state, reason := Some(reason))]
  {
    forall k | 0 <= k < |claims| && k != i ensures !IsReleased(claims[k], runId, topLevel, entityId, lane) {
      assert !Contend(claims[if k < i then k else i], claims[if k < i then i else k]);
    }
  }

  /** A release takes the active claim of its entity and of no other. */
  lemma ReleaseIsExact(claims: seq<Claim>, runId: string, topLevel: bool, entityId: string, reason: string, state: ClaimState,
                       r: string, top: bool, e: string)
    requires !state.ClaimActive?
    ensures HasActive(Released(claims, runId, topLevel, entityId, None, reason, state), r, top, e) <==>
      HasActive(claims, r, top, e) && !(r == runId && top == topLevel && e == entityId)
  {
    var after := Released(claims, runId, topLevel, entityId, None, reason, state);
    if HasActive(after, r, top, e) {
      var i :| 0 <= i < |after| && Names(after[i], r, top, e);
      assert Names(claims[i], r, top, e);
    }
    if HasActive(claims, r, top, e) && !(r == runId && top == topLevel && e == entityId) {
      var i :| 0 <= i < |claims| && Names(claims[i], r, top, e);
      assert Names(after[i], r, top, e);
    }
  }

  lemma ReleaseKeepsUnique(claims: seq<Claim>, runId: string, topLevel: bool, entityId: string, lane: Option<string>,
                           reason: string, state: ClaimState)
    requires UniqueActive(claims) && !state.ClaimActive?
    ensures UniqueActive(Released(claims, runId, topLevel, entityId, lane, reason, state))
  {
    var after := Released(claims, runId, topLevel, entityId, lane, reason, state);
    forall i, j | 0 <= i < j < |after| ensures !Contend(after[i], after[j]) {
      assert !Contend(claims[i], claims[j]);
    }
  }

  lemma ReleaseKeepsInPlace(tasks: map<string, TaskRow>, units: map<string, UnitRow>, claims: seq<Claim>,
                            runId: string, topLevel: bool, entityId: string, lane: Option<string>, reason: string, state: ClaimState)
    requires InPlace(tasks, units, claims)
    ensures InPlace(tasks, units, Released(claims, runId, topLevel, entityId, lane, reason, state))
  {
  }

  /* ------------------------------------------------------ runs of claim and release */

  datatype ClaimEvent =
    | ClaimBatch(runId: string, scope: ClaimScope, batch: seq<Candidate>, limits: Limits)
    | ReleaseClaims(runId: string, topLevel: bool, entityId: string, lane: Option<string>, reason: string)

  function ClaimStep(claims: seq<Claim>, e: ClaimEvent): seq<Claim> {
    match e
    case ClaimBatch(runId, scope, batch, limits) => Granting(claims, runId, scope, batch, limits)
    case ReleaseClaims(runId, topLevel, entityId, lane, reason) =>
      Released(claims, runId, topLevel, entityId, lane, reason, ClaimReleased)
  }

  function ClaimRun(claims: seq<Claim>, events: seq<ClaimEvent>): seq<Claim>
    decreases |events|
  {
    if events == [] then claims else ClaimRun(ClaimStep(claims, events[0]), events[1..])
  }

  /** No batch of the events is allowed more of the pool than the limit. */
  ghost predicate Capped(events: seq<ClaimEvent>, pool: Pool, limit: nat) {
    forall e | e in events && e.ClaimBatch? ::
      forall l: nat | Limited(pool, e.runId, e.scope, e.limits, l) :: l <= limit
  }

  lemma ClaimStepKeepsCapacity(claims: seq<Claim>, e: ClaimEvent, pool: Pool, limit: nat)
    requires UniqueActive(claims) && Capped([e], pool, limit)
    ensures UniqueActive(ClaimStep(claims, e)) && Used(ClaimStep(claims, e), pool) <= Max(Used(claims, pool), limit)
  {
    match e {
      case ClaimBatch(runId, scope, batch, limits) =>
        GrantingKeepsUnique(claims, runId, scope, batch, limits);
        assert e in [e];
        if l: nat :| Limited(pool, runId, scope, limits, l) {
          GrantingStaysWithinLimits(claims, runId, scope, batch, limits, pool, l);
        } else {
          assert !Limited(pool, runId, scope, limits, limits.topLevel) && !Limited(pool, runId, scope, limits, limits.subagents)
            && !Limited(pool, runId, scope, limits, limits.lane);
          GrantingKeepsOtherPools(claims, runId, scope, batch, limits, pool);
        }
      case ReleaseClaims(runId, topLevel, entityId, lane, reason) =>
        ReleaseKeepsUnique(claims, runId, topLevel, entityId, lane, reason, ClaimReleased);
        ReleaseFreesExactly(claims, runId, topLevel, entityId, lane, reason, ClaimReleased, pool);
    }
  }

  /** Over every sequence of claims and releases a pool never holds more than the larger of what it
      held and the largest limit a batch was given, and no entity has two active claims. */
  lemma {:induction false} CapacityHoldsOverRuns(claims: seq<Claim>, events: seq<ClaimEvent>, pool: Pool, limit: nat)
    requires UniqueActive(claims) && Capped(events, pool, limit)
    ensures UniqueActive(ClaimRun(claims, events)) && Used(ClaimRun(claims, events), pool) <= Max(Used(claims, pool), limit)
    decreases |events|
  {
    if events != [] {
      assert Capped([events[0]], pool, limit) && Capped(events[1..], pool, limit);
      ClaimStepKeepsCapacity(claims, events[0], pool, limit);
      CapacityHoldsOverRuns(ClaimStep(claims, events[0]), events[1..], pool, limit);
    }
  }

  /* ----------------------------------------------------------------- the store */

  datatype ClaimError = BadLane | BadSlots | MissingRun | WrongRun | WrongLane

  datatype Decision = Reject(reason: ClaimError) | Skip | Grant

  /** The running totals agree with the table, for the pools the scope is limited by. */
  ghost predicate AreTotals(claims: seq<Claim>, runId: string, scope: ClaimScope, topUsed: nat, subagentUsed: nat, laneUsed: nat) {
    match scope
    case TopLevel => topUsed == Used(claims, TopLevelPool(runId))
    case Lane(lane) =>
      subagentUsed == Used(claims, LanesPool(runId)) && laneUsed == Used(claims, LanePool(runId, lane))
  }

  lemma GrantAddsToTotals(claims: seq<Claim>, runId: string, scope: ClaimScope, c: Candidate,
                          topUsed: nat, subagentUsed: nat, laneUsed: nat)
    requires AreTotals(claims, runId, scope, topUsed, subagentUsed, laneUsed)
    ensures AreTotals(claims + [NewClaim(runId, scope, c)], runId, scope,
                      topUsed + c.slots, subagentUsed + c.slots, laneUsed + c.slots)
  {
    var claim := NewClaim(runId, scope, c);
    UsedAppend(claims, claim, TopLevelPool(runId));
    UsedAppend(claims, claim, LanesPool(runId));
    if scope.Lane? { UsedAppend(claims, claim, LanePool(runId, scope.laneId)); }
  }

  /** The next candidate after a settled prefix is rejected exactly when it is not settled before the
      batch either. */
  lemma NextIsSettledExactly(tasks: map<string, TaskRow>, units: map<string, UnitRow>, claims: seq<Claim>,
                             runId: string, scope: ClaimScope, batch: seq<Candidate>, limits: Limits, c: Candidate)
    requires AllSettled(tasks, units, claims, runId, scope, batch)
    ensures var now := Granting(claims, runId, scope, batch, limits);
      HasActive(now, runId, scope.TopLevel?, c.entityId) || Belongs(tasks, units, runId, scope, c.entityId)
      <==> AllSettled(tasks, units, claims, runId, scope, batch + [c])
  {
    GrantingActivates(claims, runId, scope, batch, limits, c.entityId);
    GrantingOnlyAdds(claims, runId, scope, batch, limits, 0);
    assert Granting(claims, runId, scope, batch[..0], limits) == claims;
    assert c in batch + [c] && forall other | other in batch :: other in batch + [c];
  }

  /** A batch is granted exactly when its lane has a name, it asks for slots, its run is there, and each
      candidate belongs where it claims or has an active claim. */
  ghost predicate CanClaim(runs: set<string>, tasks: map<string, TaskRow>, units: map<string, UnitRow>, claims: seq<Claim>,
                           runId: string, scope: ClaimScope, batch: seq<Candidate>) {
    && scope != Lane("") && (forall c | c in batch :: c.slots > 0) && runId in runs
    && AllSettled(tasks, units, claims, runId, scope, batch)
  }

  /** A batch under way: the candidates so far are granted or passed over, and the totals are right. */
  ghost predicate UnderWay(tasks: map<string, TaskRow>, units: map<string, UnitRow>, before: seq<Claim>, now: seq<Claim>,
                           runId: string, scope: ClaimScope, batch: seq<Candidate>, limits: Limits,
                           topUsed: nat, subagentUsed: nat, laneUsed: nat) {
    && now == Granting(before, runId, scope, batch, limits)
    && AllSettled(tasks, units, before, runId, scope, batch)
    && AreTotals(now, runId, scope, topUsed, subagentUsed, laneUsed)
  }

  class ClaimStore {
    var runs: set<string>
    var tasks: map<string, TaskRow>
    var units: map<string, UnitRow>
    var claims: seq<Claim>

    ghost predicate Valid()
      reads this
    {
      UniqueActive(claims) && InPlace(tasks, units, claims)
    }

    /** Open a store on existing tables. */
    constructor (runs: set<string>, tasks: map<string, TaskRow>, units: map<string, UnitRow>, claims: seq<Claim>)
      requires UniqueActive(claims) && InPlace(tasks, units, claims)
      ensures Valid() && this.claims == claims
      ensures this.runs == runs && this.tasks == tasks && this.units == units
    {
      this.runs, this.tasks, this.units, this.claims := runs, tasks, units, claims;
    }

    /** SELECT SUM(slots) over a pool. */
    method SumSlots(pool: Pool) returns (used: nat)
      ensures used == Used(claims, pool)
    {
      used := 0;
      for i := 0 to |claims|
        invariant used == Used(claims[..i], pool)
      {
        assert claims[..i + 1][..i] == claims[..i];
        if Counts(pool, claims[i]) { used := used + claims[i].slots; }
      }
      assert claims[..|claims|] == claims;
    }

    /** One claim batch under running totals; an entity of another run or lane undoes the batch. */
    method ClaimResources(runId: string, scope: ClaimScope, batch: seq<Candidate>, limits: Limits) returns (error: Option<ClaimError>)
      requires Valid()
      modifies this`claims
      ensures Valid()
      ensures error.None? <==> CanClaim(runs, tasks, units, old(claims), runId, scope, batch)
      ensures claims == if error.None? then Granting(old(claims), runId, scope, batch, limits) else old(claims)
    {
      if scope == Lane("") { return Some(BadLane); }
      if exists i | 0 <= i < |batch| :: batch[i].slots == 0 { return Some(BadSlots); }
      if runId !in runs { return Some(MissingRun); }
      var before := claims;
      error := ClaimInOrder(runId, scope, batch, limits);
      if error.Some? {
        claims := before;
      } else {
        GrantingKeepsUnique(before, runId, scope, batch, limits);
        GrantingKeepsInPlace(tasks, units, before, runId, scope, batch, limits);
      }
    }

    /** Look at the candidates in order, up to the first that does not belong. */
    method ClaimInOrder(runId: string, scope: ClaimScope, batch: seq<Candidate>, limits: Limits) returns (error: Option<ClaimError>)
      modifies this`claims
      ensures error.None? <==> AllSettled(tasks, units, old(claims), runId, scope, batch)
      ensures error.None? ==> claims == Granting(old(claims), runId, scope, batch, limits)
    {
      var topUsed: nat := SumSlots(TopLevelPool(runId));
      var subagentUsed: nat := SumSlots(LanesPool(runId));
      var laneUsed: nat := 0;
      if scope.Lane? { laneUsed := SumSlots(LanePool(runId, scope.laneId)); }
      ghost var before := claims;
      for i := 0 to |batch|
        invariant UnderWay(tasks, units, before, claims, runId, scope, batch[..i], limits, topUsed, subagentUsed, laneUsed)
      {
        assert batch[..i + 1] == batch[..i] + [batch[i]];
        var rejected, granted := ClaimOne(before, runId, scope, batch[..i], batch[i], limits, topUsed, subagentUsed, laneUsed);
        if rejected.Some? {
          assert forall c | c in batch[..i + 1] :: c in batch;
          return rejected;
        }
        if granted && scope.TopLevel? { topUsed := topUsed + batch[i].slots; }
        if granted && scope.Lane? {
          subagentUsed := subagentUsed + batch[i].slots;
          laneUsed := laneUsed + batch[i].slots;
        }
      }
      assert batch[..|batch|] == batch;
      return None;
    }

    /** One candidate of a batch under way. */
    method ClaimOne(ghost before: seq<Claim>, runId: string, scope: ClaimScope, ghost done: seq<Candidate>, c: Candidate, limits: Limits,
                    topUsed: nat, subagentUsed: nat, laneUsed: nat)
      returns (rejected: Option<ClaimError>, granted: bool)
      requires UnderWay(tasks, units, before, claims, runId, scope, done, limits, topUsed, subagentUsed, laneUsed)
      modifies this`claims
      ensures rejected.None? <==> AllSettled(tasks, units, before, runId, scope, done + [c])
      ensures rejected.None? ==>
        var more := if granted then c.slots else 0;
        UnderWay(tasks, units, before, claims, runId, scope, done + [c], limits, topUsed + more, subagentUsed + more, laneUsed + more)
    {
      var decision := Decide(claims, runId, scope, c, limits, topUsed, subagentUsed, laneUsed);
      NextIsSettledExactly(tasks, units, before, runId, scope, done, limits, c);
      GrantingNext(before, runId, scope, done, c, limits);
      match decision {
        case Reject(reason) => return Some(reason), false;
        case Skip => return None, false;
        case Grant =>
          GrantAddsToTotals(claims, runId, scope, c, topUsed, subagentUsed, laneUsed);
          claims := claims + [NewClaim(runId, scope, c)];
          return None, true;
      }
    }

    /** What the batch does with one candidate, given the running totals. */
    method Decide(current: seq<Claim>, runId: string, scope: ClaimScope, c: Candidate, limits: Limits,
                  topUsed: nat, subagentUsed: nat, laneUsed: nat) returns (decision: Decision)
      requires AreTotals(current, runId, scope, topUsed, subagentUsed, laneUsed)
      ensures decision.Reject? ==>
        !HasActive(current, runId, scope.TopLevel?, c.entityId) && !Belongs(tasks, units, runId, scope, c.entityId)
      ensures !decision.Reject? ==>
        HasActive(current, runId, scope.TopLevel?, c.entityId) || Belongs(tasks, units, runId, scope, c.entityId)
      ensures !decision.Reject? ==> (decision.Grant? <==>
        !HasActive(current, runId, scope.TopLevel?, c.entityId) && Fits(current, runId, scope, c.slots, limits))
    {
      if HasActive(current, runId, scope.TopLevel?, c.entityId) { return Skip; }
      match scope {
        case TopLevel =>
          if c.entityId !in tasks || tasks[c.entityId].runId != runId { return Reject(WrongRun); }
          if topUsed + c.slots > limits.topLevel { return Skip; }
        case Lane(lane) =>
          if c.entityId !in units || units[c.entityId].taskId !in tasks || tasks[units[c.entityId].taskId].runId != runId {
            return Reject(WrongRun);
          }
          if units[c.entityId].taskId != lane { return Reject(WrongLane); }
          if subagentUsed + c.slots > limits.subagents { return Skip; }
          if laneUsed + c.slots > limits.lane { return Skip; }
      }
      return Grant;
    }

    method ReleaseResourceClaim(runId: string, topLevel: bool, entityId: string, lane: Option<string>, reason: string)
      requires Valid()
      modifies this`claims
      ensures Valid()
      ensures claims == Released(old(claims), runId, topLevel, entityId, lane, reason, ClaimReleased)
    {
      ReleaseKeepsUnique(claims, runId, topLevel, entityId, lane, reason, ClaimReleased);
      ReleaseKeepsInPlace(tasks, units, claims, runId, topLevel, entityId, lane, reason, ClaimReleased);
      var before := claims;
      for i := 0 to |before|
        invariant |claims| == |before|
        invariant forall k | 0 <= k < i :: claims[k] == ReleasedRow(before[k], runId, topLevel, entityId, lane, reason, ClaimReleased)
        invariant forall k | i <= k < |before| :: claims[k] == before[k]
      {
        if IsReleased(claims[i], runId, topLevel, entityId, lane) {
          claims := claims[i := claims[i].(state := ClaimReleased, reason := Some(reason))];
        }
      }
      assert claims == Released(before, runId, topLevel, entityId, lane, reason, ClaimReleased);
    }

    /** Slots grouped by scope and lane, and the two sums over the groups. */
    method ResourceOccupancy(runId: string) returns (topLevel: nat, subagents: nat, lanes: map<string, nat>)
      ensures topLevel == Used(claims, TopLevelPool(runId))
      ensures subagents == Used(claims, LanesPool(runId))
      ensures forall lane | lane in lanes :: lanes[lane] == Used(claims, LanePool(runId, lane))
      ensures forall lane | lane !in lanes :: Used(claims, LanePool(runId, lane)) == 0
    {
      topLevel, lanes := 0, map[];
      for i := 0 to |claims|
        invariant topLevel == Used(claims[..i], TopLevelPool(runId))
        invariant SumOf(lanes) == Used(claims[..i], LanesPool(runId))
        invariant forall lane | lane in lanes :: lanes[lane] == Used(claims[..i], LanePool(runId, lane))
        invariant forall lane | lane !in lanes :: Used(claims[..i], LanePool(runId, lane)) == 0
      {
        assert claims[..i + 1][..i] == claims[..i];
        var c := claims[i];
        if Counts(TopLevelPool(runId), c) { topLevel := topLevel + c.slots; }
        if Counts(LanesPool(runId), c) {
          var lane := c.scope.laneId;
          var total := (if lane in lanes then lanes[lane] else 0) + c.slots;
          SumOfUpdate(lanes, lane, total);
          lanes := lanes[lane := total];
        }
      }
      assert claims[..|claims|] == claims;
      subagents := SumValues(lanes);
    }
  }

  /* ------------------------------------------------------------- sums of a map */

  ghost function SumOf(m: map<string, nat>): nat {
    if m == map[] then 0
    else
      var k :| k in m;
      m[k] + SumOf(m - {k})
  }

  /** The sum may be taken out at any key. */
  lemma {:induction false} SumOfAt(m: map<string, nat>, k: string)
    requires k in m
    ensures SumOf(m) == m[k] + SumOf(m - {k})
    decreases |m|
  {
    var first :| first in m && SumOf(m) == m[first] + SumOf(m - {first});
    if first != k {
      SumOfAt(m - {first}, k);
      SumOfAt(m - {k}, first);
      assert m - {first} - {k} == m - {k} - {first};
    }
  }

  lemma SumOfUpdate(m: map<string, nat>, k: string, n: nat)
    ensures SumOf(m[k := n]) == SumOf(m) - (if k in m then m[k] else 0) + n
  {
    SumOfAt(m[k := n], k);
    if k in m {
      SumOfAt(m, k);
      assert m[k := n] - {k} == m - {k};
    } else {
      assert m[k := n] - {k} == m;
    }
  }

  method SumValues(m: map<string, nat>) returns (total: nat)
    ensures total == SumOf(m)
  {
    total := 0;
    var rest := m;
    while rest != map[]
      invariant total + SumOf(rest) == SumOf(m)
      decreases |rest|
    {
      var k :| k in rest;
      SumOfAt(rest, k);
      total := total + rest[k];
      rest := rest - {k};
    }
  }
}
