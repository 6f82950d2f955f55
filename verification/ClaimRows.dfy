/** The claim table row by row: who holds a claim, what each pool counts, what a release writes and
    which candidates a batch serves. */
module ClaimRows {
  import opened Common
  import opened StoreRows
  import opened ResourceClaims

  /** The row is an active claim of the entity, of the run, in a lane or not. */
  ghost predicate IsHeldBy(c: Claim, runId: string, topLevel: bool, entityId: string) {
    c.state == ClaimActive && c.runId == runId && (c.scope == TopLevel <==> topLevel) && c.entityId == entityId
  }

  ghost predicate Holds(claims: seq<Claim>, runId: string, topLevel: bool, entityId: string) {
    exists i :: 0 <= i < |claims| && IsHeldBy(claims[i], runId, topLevel, entityId)
  }

  lemma HeldExactly(claims: seq<Claim>, runId: string, topLevel: bool, entityId: string)
    ensures HasActive(claims, runId, topLevel, entityId) <==> Holds(claims, runId, topLevel, entityId)
  {
    if HasActive(claims, runId, topLevel, entityId) {
      var i :| 0 <= i < |claims| && Names(claims[i], runId, topLevel, entityId);
      assert IsHeldBy(claims[i], runId, topLevel, entityId);
    }
    if Holds(claims, runId, topLevel, entityId) {
      var i :| 0 <= i < |claims| && IsHeldBy(claims[i], runId, topLevel, entityId);
      assert Names(claims[i], runId, topLevel, entityId);
    }
  }

  /** A release marks the active rows of its entity, in the lane it names if it names one, and leaves
      every other row. */
  ghost predicate GivenBack(before: seq<Claim>, after: seq<Claim>, runId: string, topLevel: bool, entityId: string,
                            lane: Option<string>, reason: string) {
    && |after| == |before|
    && forall i | 0 <= i < |before| :: after[i] ==
         if IsHeldBy(before[i], runId, topLevel, entityId) && (lane.None? || before[i].scope == Lane(lane.value))
         then Claim(before[i].runId, before[i].scope, entityId, before[i].slots, ClaimReleased, Some(reason)) else before[i]
  }

  lemma ReleasedRowsExactly(claims: seq<Claim>, runId: string, topLevel: bool, entityId: string, lane: Option<string>, reason: string)
    ensures var after := Released(claims, runId, topLevel, entityId, lane, reason, ClaimReleased);
      GivenBack(claims, after, runId, topLevel, entityId, lane, reason)
  {
  }

  /** Each pool counts the slots of the active claims of its run and kind, and nothing else. */
  lemma PoolsCountExactly(claims: seq<Claim>, c: Claim, runId: string, lane: string)
    ensures forall pool :: Used([], pool) == 0
    ensures Used(claims + [c], TopLevelPool(runId)) == Used(claims, TopLevelPool(runId))
      + if c.state == ClaimActive && c.runId == runId && c.scope == TopLevel then c.slots else 0
    ensures Used(claims + [c], LanesPool(runId)) == Used(claims, LanesPool(runId))
      + if c.state == ClaimActive && c.runId == runId && c.scope != TopLevel then c.slots else 0
    ensures Used(claims + [c], LanePool(runId, lane)) == Used(claims, LanePool(runId, lane))
      + if c.state == ClaimActive && c.runId == runId && c.scope == Lane(lane) then c.slots else 0
  {
    UsedAppend(claims, c, TopLevelPool(runId));
    UsedAppend(claims, c, LanesPool(runId));
    UsedAppend(claims, c, LanePool(runId, lane));
  }

  /** One of the pools the scope is limited by has too little room left. */
  ghost predicate IsFull(claims: seq<Claim>, runId: string, scope: ClaimScope, slots: nat, limits: Limits) {
    exists pool: Pool, limit: nat :: Limited(pool, runId, scope, limits, limit) && Used(claims, pool) + slots > limit
  }

  lemma FitsExactly(claims: seq<Claim>, runId: string, scope: ClaimScope, slots: nat, limits: Limits)
    ensures Fits(claims, runId, scope, slots, limits) <==> !IsFull(claims, runId, scope, slots, limits)
  {
    if !Fits(claims, runId, scope, slots, limits) {
      match scope
      case TopLevel => assert Limited(TopLevelPool(runId), runId, scope, limits, limits.topLevel);
      case Lane(lane) =>
        assert Limited(LanesPool(runId), runId, scope, limits, limits.subagents);
        assert Limited(LanePool(runId, lane), runId, scope, limits, limits.lane);
    }
  }

  /** A candidate is served exactly when its entity holds nothing yet and no pool is full for it. */
  lemma ServedExactly(claims: seq<Claim>, runId: string, scope: ClaimScope, batch: seq<Candidate>, c: Candidate, limits: Limits)
    ensures Granting(claims, runId, scope, [], limits) == claims
    ensures var now := Granting(claims, runId, scope, batch, limits);
      Granting(claims, runId, scope, batch + [c], limits)
      == if Holds(now, runId, scope == TopLevel, c.entityId) || IsFull(now, runId, scope, c.slots, limits) then now
         else now + [Claim(runId, scope, c.entityId, c.slots, ClaimActive, None)]
  {
    var now := Granting(claims, runId, scope, batch, limits);
    GrantingNext(claims, runId, scope, batch, c, limits);
    HeldExactly(now, runId, scope == TopLevel, c.entityId);
    FitsExactly(now, runId, scope, c.slots, limits);
  }

  /** A batch is granted or refused as a whole: exactly when its lane has a name, it asks for slots, its run is
      there, and every candidate is a task of the run, or a work unit of the lane of a task of the run, or
      holds a claim already. */
  lemma ClaimableExactly(runs: set<string>, tasks: map<string, TaskRow>, units: map<string, UnitRow>, claims: seq<Claim>,
                         runId: string, scope: ClaimScope, batch: seq<Candidate>)
    ensures CanClaim(runs, tasks, units, claims, runId, scope, batch) <==>
      && scope != Lane("") && runId in runs && (forall i | 0 <= i < |batch| :: batch[i].slots > 0)
      && forall i | 0 <= i < |batch| ::
           || Holds(claims, runId, scope == TopLevel, batch[i].entityId)
           || match scope
              case TopLevel => batch[i].entityId in tasks && tasks[batch[i].entityId].runId == runId
              case Lane(lane) =>
                batch[i].entityId in units && units[batch[i].entityId].taskId == lane && lane in tasks && tasks[lane].runId == runId
  {
    forall c: Candidate
      ensures HasActive(claims, runId, scope.TopLevel?, c.entityId) <==> Holds(claims, runId, scope == TopLevel, c.entityId)
    {
      HeldExactly(claims, runId, scope == TopLevel, c.entityId);
    }
    assert forall i | 0 <= i < |batch| :: batch[i] in batch;
  }

  /** A candidate left without a claim would not fit at the end of the batch either. */
  lemma LeftOutForRoomOnly(claims: seq<Claim>, runId: string, scope: ClaimScope, batch: seq<Candidate>, limits: Limits, i: nat)
    requires i < |batch|
    ensures var after := Granting(claims, runId, scope, batch, limits);
      Holds(after, runId, scope == TopLevel, batch[i].entityId) || IsFull(after, runId, scope, batch[i].slots, limits)
  {
    var after := Granting(claims, runId, scope, batch, limits);
    GrantingIsMaximal(claims, runId, scope, batch, limits, i);
    HeldExactly(after, runId, scope == TopLevel, batch[i].entityId);
    FitsExactly(after, runId, scope, batch[i].slots, limits);
  }
}
