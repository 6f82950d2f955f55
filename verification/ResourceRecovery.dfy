/** Rebuilding the claim table from active facts. */
module ResourceRecovery {
  import opened Common
  import opened States
  import opened StoreRows
  import opened ResourceClaims
  import Leases

  /** The tables recovery reads. */
  datatype Facts = Facts(
    tasks: map<string, TaskRow>, units: map<string, UnitRow>,
    attempts: map<string, Attempt>, unitAttempts: map<string, UnitAttempt>,
    outbox: map<string, OutboxRow>, leases: map<string, Lease>)

  /* ------------------------------------------------------------ active facts */

  predicate AwaitsHost(f: Facts, runId: string, targetId: string) {
    exists k | k in f.outbox ::
      f.outbox[k].runId == runId && f.outbox[k].targetId == targetId && (f.outbox[k].state.Pending? || f.outbox[k].state.Emitted?)
  }

  predicate IsLeased(f: Facts, scope: TargetType, scopeId: string) {
    exists l | l in f.leases :: f.leases[l].scope == scope && f.leases[l].scopeId == scopeId && f.leases[l].state.LeaseActive?
  }

  predicate HasLiveAttempt(f: Facts, taskId: string) {
    exists k | k in f.attempts :: f.attempts[k].taskId == taskId &&
      f.attempts[k].state in {AttemptCreated, Dispatched, Acknowledged, AttemptActive, HandoffReady}
  }

  predicate HasLiveUnitAttempt(f: Facts, unitId: string) {
    exists k | k in f.unitAttempts :: f.unitAttempts[k].unitId == unitId &&
      f.unitAttempts[k].state in {UnitAttemptCreated, Delegated, UnitAttemptActive, UnitAttemptBlocked}
  }

  predicate IsBusyTask(f: Facts, runId: string, id: string) {
    id in f.tasks && f.tasks[id].runId == runId && f.tasks[id].state in {Dispatching, Active, Waiting, Verifying}
  }

  predicate IsBusyUnit(f: Facts, id: string) {
    id in f.units && f.units[id].state in {UnitDelegated, UnitActive}
  }

  /** The support a release asks for. */
  predicate IsSupported(f: Facts, runId: string, topLevel: bool, id: string) {
    if topLevel then IsBusyTask(f, runId, id) || HasLiveAttempt(f, id) || AwaitsHost(f, runId, id) || IsLeased(f, TaskTarget, id)
    else IsBusyUnit(f, id) || HasLiveUnitAttempt(f, id) || AwaitsHost(f, runId, id) || IsLeased(f, UnitTarget, id)
  }

  predicate InRun(f: Facts, runId: string, topLevel: bool, id: string) {
    if topLevel then id in f.tasks && f.tasks[id].runId == runId
    else id in f.units && f.units[id].taskId in f.tasks && f.tasks[f.units[id].taskId].runId == runId
  }

  /** The entities recovery looks for: those of the run that an active fact supports. */
  function ActiveEntities(f: Facts, runId: string, topLevel: bool): set<string> {
    set id | id in (if topLevel then f.tasks.Keys else f.units.Keys) && InRun(f, runId, topLevel, id) && IsSupported(f, runId, topLevel, id)
  }

  /* ------------------------------------------------------------ correspondence */

  /** Claims are only ever made for entities of their run, under their own lane. */
  ghost predicate WellScoped(f: Facts, claims: seq<Claim>) {
    InPlace(f.tasks, f.units, claims)
  }

  /** Active claims of the run and supported entities of the run are the same. */
  ghost predicate Corresponds(f: Facts, runId: string, claims: seq<Claim>) {
    && UniqueActive(claims)
    && forall topLevel, id :: HasActive(claims, runId, topLevel, id) <==> id in ActiveEntities(f, runId, topLevel)
  }

  function ScopeOf(f: Facts, topLevel: bool, id: string): ClaimScope
    requires !topLevel ==> id in f.units
  {
    if topLevel then TopLevel else Lane(f.units[id].taskId)
  }

  function RecoveredClaim(f: Facts, runId: string, topLevel: bool, id: string): Claim
    requires !topLevel ==> id in f.units
  {
    Claim(runId, ScopeOf(f, topLevel, id), id, 1, ClaimActive, None)
  }

  /** A one-slot active claim recovery made for a supported entity. */
  ghost predicate IsRecovered(f: Facts, runId: string, topLevel: bool, c: Claim) {
    c.entityId in ActiveEntities(f, runId, topLevel) && c == RecoveredClaim(f, runId, topLevel, c.entityId)
  }

  lemma AddedClaim(claims: seq<Claim>, c: Claim, runId: string, topLevel: bool, id: string)
    requires c.state.ClaimActive?
    ensures HasActive(claims + [c], runId, topLevel, id) <==>
      HasActive(claims, runId, topLevel, id) || Names(c, runId, topLevel, id)
  {
    var after := claims + [c];
    if HasActive(claims, runId, topLevel, id) {
      var i :| 0 <= i < |claims| && Names(claims[i], runId, topLevel, id);
      assert Names(after[i], runId, topLevel, id);
    }
    if Names(c, runId, topLevel, id) { assert Names(after[|claims|], runId, topLevel, id); }
  }

  lemma AddedClaimKeepsUnique(claims: seq<Claim>, c: Claim)
    requires UniqueActive(claims) && !HasActive(claims, c.runId, c.scope.TopLevel?, c.entityId)
    ensures UniqueActive(claims + [c])
  {
  }

  /** The entities without an active claim of their own. */
  function Missing(claims: seq<Claim>, runId: string, topLevel: bool, ids: set<string>): set<string> {
    set id | id in ids && !HasActive(claims, runId, topLevel, id)
  }

  /** Does a claim of this entity count in the pool? */
  predicate Enters(f: Facts, runId: string, topLevel: bool, pool: Pool, id: string) {
    if topLevel then pool == TopLevelPool(runId)
    else pool == LanesPool(runId) || (id in f.units && pool == LanePool(runId, f.units[id].taskId))
  }

  function Entrants(f: Facts, runId: string, topLevel: bool, pool: Pool, ids: set<string>): set<string> {
    set id | id in ids && Enters(f, runId, topLevel, pool, id)
  }

  /** Every pool grew by one slot for each of the entities that enters it. */
  ghost predicate GrewBy(f: Facts, runId: string, topLevel: bool, before: seq<Claim>, now: seq<Claim>, recovered: set<string>) {
    forall pool :: Used(now, pool) == Used(before, pool) + |Entrants(f, runId, topLevel, pool, recovered)|
  }

  lemma GrowsByOne(f: Facts, runId: string, topLevel: bool, before: seq<Claim>, now: seq<Claim>, recovered: set<string>, id: string)
    requires GrewBy(f, runId, topLevel, before, now, recovered) && id !in recovered && (!topLevel ==> id in f.units)
    ensures GrewBy(f, runId, topLevel, before, now + [RecoveredClaim(f, runId, topLevel, id)], recovered + {id})
  {
    var c := RecoveredClaim(f, runId, topLevel, id);
    forall pool
      ensures Used(now + [c], pool) == Used(before, pool) + |Entrants(f, runId, topLevel, pool, recovered + {id})|
    {
      UsedAppend(now, c, pool);
      var was, more := Entrants(f, runId, topLevel, pool, recovered), Entrants(f, runId, topLevel, pool, recovered + {id});
      assert Counts(pool, c) <==> Enters(f, runId, topLevel, pool, id);
      assert more == if Enters(f, runId, topLevel, pool, id) then was + {id} else was;
    }
  }

  /** Recovery after looking at the entities in `seen`: claims were only added, one for each of them
      that had none. */
  ghost predicate Recovering(f: Facts, runId: string, topLevel: bool, before: seq<Claim>, now: seq<Claim>,
                             seen: set<string>, recovered: set<string>) {
    && recovered == Missing(before, runId, topLevel, seen)
    && before <= now && (recovered == {} ==> now == before)
    && GrewBy(f, runId, topLevel, before, now, recovered)
    && (forall i | |before| <= i < |now| :: IsRecovered(f, runId, topLevel, now[i]))
    && (forall r, top, id :: HasActive(now, r, top, id) <==>
          HasActive(before, r, top, id) || (r == runId && top == topLevel && id in recovered))
  }

  lemma RecoveringGoesOn(f: Facts, runId: string, topLevel: bool, before: seq<Claim>, now: seq<Claim>,
                         seen: set<string>, recovered: set<string>, after: seq<Claim>, id: string)
    requires Recovering(f, runId, topLevel, before, now, seen, recovered)
    requires id in ActiveEntities(f, runId, topLevel) && id !in seen
    requires after == if HasActive(now, runId, topLevel, id) then now else now + [RecoveredClaim(f, runId, topLevel, id)]
    ensures Recovering(f, runId, topLevel, before, after, seen + {id},
                       if HasActive(now, runId, topLevel, id) then recovered else recovered + {id})
  {
    if HasActive(now, runId, topLevel, id) {
      assert id !in recovered;
    } else {
      GrowsByOne(f, runId, topLevel, before, now, recovered, id);
      forall i | |before| <= i < |after| ensures IsRecovered(f, runId, topLevel, after[i]) {
        if i < |now| { assert IsRecovered(f, runId, topLevel, now[i]); }
      }
      forall r, top, e ensures HasActive(after, r, top, e) <==>
        HasActive(before, r, top, e) || (r == runId && top == topLevel && e in recovered + {id})
      {
        AddedClaim(now, RecoveredClaim(f, runId, topLevel, id), r, top, e);
      }
    }
  }

  class RecoveryStore {
    var tasks: map<string, TaskRow>
    var units: map<string, UnitRow>
    var attempts: map<string, Attempt>
    var unitAttempts: map<string, UnitAttempt>
    var outbox: map<string, OutboxRow>
    var leases: map<string, Lease>
    var claims: seq<Claim>

    function View(): Facts
      reads this
    {
      Facts(tasks, units, attempts, unitAttempts, outbox, leases)
    }

    ghost predicate Valid()
      reads this
    {
      UniqueActive(claims) && WellScoped(View(), claims)
    }

    /** Open a store on existing tables. */
    constructor (f: Facts, claims: seq<Claim>)
      requires UniqueActive(claims) && WellScoped(f, claims)
      ensures Valid() && View() == f && this.claims == claims
    {
      tasks, units, attempts, unitAttempts, outbox, leases := f.tasks, f.units, f.attempts, f.unitAttempts, f.outbox, f.leases;
      this.claims := claims;
    }

    /** Give every supported entity of one kind an active claim of one slot if it has none. */
    method Recover(runId: string, topLevel: bool) returns (recovered: set<string>)
      requires Valid()
      modifies this`claims
      ensures Valid()
      ensures Recovering(View(), runId, topLevel, old(claims), claims, ActiveEntities(View(), runId, topLevel), recovered)
    {
      ghost var before, f := claims, View();
      var todo := ActiveEntities(View(), runId, topLevel);
      var pending := todo;
      recovered := {};
      assert todo - pending == {};
      while pending != {}
        invariant pending <= todo && UnderWay(f, runId, topLevel, before, todo - pending, recovered)
        decreases pending
      {
        var id :| id in pending;
        var added := RecoverNext(f, runId, topLevel, id, before, todo - pending, recovered);
        assert todo - (pending - {id}) == todo - pending + {id};
        pending := pending - {id};
        if added { recovered := recovered + {id}; }
      }
      assert todo - pending == todo;
    }

    ghost predicate UnderWay(f: Facts, runId: string, topLevel: bool, before: seq<Claim>, seen: set<string>, recovered: set<string>)
      reads this
    {
      View() == f && Valid() && Recovering(f, runId, topLevel, before, claims, seen, recovered)
    }

    /** One more entity of a recovery under way. */
    method RecoverNext(ghost f: Facts, runId: string, topLevel: bool, id: string, ghost before: seq<Claim>, ghost seen: set<string>,
                       ghost recovered: set<string>) returns (added: bool)
      requires UnderWay(f, runId, topLevel, before, seen, recovered)
      requires id in ActiveEntities(f, runId, topLevel) && id !in seen
      modifies this`claims
      ensures UnderWay(f, runId, topLevel, before, seen + {id}, if added then recovered + {id} else recovered)
    {
      ghost var now := claims;
      added := RecoverClaim(runId, topLevel, id);
      RecoveringGoesOn(View(), runId, topLevel, before, now, seen, recovered, claims, id);
    }

    method RecoverClaim(runId: string, topLevel: bool, id: string) returns (added: bool)
      requires Valid() && id in ActiveEntities(View(), runId, topLevel)
      modifies this`claims
      ensures Valid()
      ensures added <==> !HasActive(old(claims), runId, topLevel, id)
      ensures claims == if added then old(claims) + [RecoveredClaim(View(), runId, topLevel, id)] else old(claims)
    {
      if HasActive(claims, runId, topLevel, id) { return false; }
      var c := RecoveredClaim(View(), runId, topLevel, id);
      AddedClaimKeepsUnique(claims, c);
      claims := claims + [c];
      return true;
    }

    /** Release every active claim of the run that no active fact supports. */
    method ReleaseUnsupported(runId: string) returns (released: set<string>)
      requires Valid()
      modifies this`claims
      ensures Valid()
      ensures claims == Settled(View(), runId, old(claims))
      ensures released == set i | 0 <= i < |old(claims)| && IsUnsupported(View(), runId, old(claims)[i]) :: old(claims)[i].entityId
    {
      ghost var f := View();
      var before := claims;
      released := {};
      for i := 0 to |before|
        invariant View() == f && |claims| == |before|
        invariant forall k | 0 <= k < i :: claims[k] == SettledRow(f, runId, before[k])
        invariant forall k | i <= k < |before| :: claims[k] == before[k]
        invariant released == set k | 0 <= k < i && IsUnsupported(f, runId, before[k]) :: before[k].entityId
        invariant UniqueActive(claims)
      {
        var c := before[i];
        if IsUnsupported(View(), runId, c) {
          var lane := if c.scope.Lane? then Some(c.scope.laneId) else None;
          ReleaseIsOneUpdate(claims, i, runId, c.scope.TopLevel?, c.entityId, lane, "recovery-no-active-fact", ClaimReconciled);
          ReleaseKeepsUnique(claims, runId, c.scope.TopLevel?, c.entityId, lane, "recovery-no-active-fact", ClaimReconciled);
          claims := Released(claims, runId, c.scope.TopLevel?, c.entityId, lane, "recovery-no-active-fact", ClaimReconciled);
          released := released + {c.entityId};
        }
      }
    }

    /** Expire leases, recover missing claims, release unsupported ones. */
    method Reconcile(runId: string, now: int) returns (recoveredTasks: set<string>, recoveredUnits: set<string>, released: set<string>)
      requires Valid()
      modifies this`claims, this`leases
      ensures Valid() && leases == Leases.Expire(old(leases), now) && Leases.DueExpired(old(leases), leases, now)
      ensures Reconciled(View(), runId, old(claims), claims, recoveredTasks, recoveredUnits)
      ensures released == set i | 0 <= i < |old(claims)| && IsUnsupported(View(), runId, old(claims)[i]) :: old(claims)[i].entityId
      ensures Corresponds(View(), runId, old(claims)) ==>
        recoveredTasks == {} && recoveredUnits == {} && released == {} && claims == old(claims)
    {
      leases := Leases.Expire(leases, now);
      ghost var before := claims;
      recoveredTasks := Recover(runId, true);
      ghost var mid := claims;
      recoveredUnits := Recover(runId, false);
      ghost var full := claims;
      released := ReleaseUnsupported(runId);
      RecoveredAndSettled(View(), runId, before, mid, full, recoveredTasks, recoveredUnits);
      ReleasedAreOld(View(), runId, before, mid, full, recoveredTasks, recoveredUnits);
      if Corresponds(View(), runId, before) { CorrespondingIsKept(View(), runId, before, recoveredTasks, recoveredUnits); }
    }

    /** A reconciliation that finds everything in correspondence and no lease due. */
    method ReconcileSettled(runId: string, now: int)
      returns (recoveredTasks: set<string>, recoveredUnits: set<string>, released: set<string>)
      requires Valid() && leases == Leases.Expire(leases, now) && Corresponds(View(), runId, claims)
      modifies this`claims, this`leases
      ensures Valid() && leases == old(leases) && claims == old(claims)
      ensures recoveredTasks == {} && recoveredUnits == {} && released == {}
    {
      ghost var facts := View();
      recoveredTasks, recoveredUnits, released := Reconcile(runId, now);
      assert View() == facts;
    }

    /** Reconciling again at the same time recovers, releases and expires nothing. */
    method ReconcileTwice(runId: string, now: int)
      returns (recoveredTasks: set<string>, recoveredUnits: set<string>, ghost settled: seq<Claim>,
               tasksAgain: set<string>, unitsAgain: set<string>, releasedAgain: set<string>)
      requires Valid()
      modifies this`claims, this`leases
      ensures Valid() && leases == Leases.Expire(old(leases), now)
      ensures Reconciled(View(), runId, old(claims), settled, recoveredTasks, recoveredUnits)
      ensures tasksAgain == {} && unitsAgain == {} && releasedAgain == {} && claims == settled
    {
      var released;
      recoveredTasks, recoveredUnits, released := Reconcile(runId, now);
      settled := claims;
      Leases.ExpiringAgain(old(leases), now);
      tasksAgain, unitsAgain, releasedAgain := ReconcileSettled(runId, now);
    }
  }

  /* ------------------------------------------------------ what a reconciliation leaves */

  predicate IsUnsupported(f: Facts, runId: string, c: Claim) {
    c.state.ClaimActive? && c.runId == runId && !IsSupported(f, runId, c.scope.TopLevel?, c.entityId)
  }

  function SettledRow(f: Facts, runId: string, c: Claim): Claim {
    if IsUnsupported(f, runId, c) then c.(state := ClaimReconciled, reason := Some("recovery-no-active-fact")) else c
  }

  /** The old rows after the release of what no fact supports. */
  function Settled(f: Facts, runId: string, claims: seq<Claim>): seq<Claim> {
    seq(|claims|, i requires 0 <= i < |claims| => SettledRow(f, runId, claims[i]))
  }

  /** After a reconciliation: the active claims of the run correspond one to one with its supported tasks
      and work units; the old rows are settled, the new ones were made for the entities that had none;
      and every pool holds what the settled rows hold and one slot for each recovered entity in it. */
  ghost predicate Reconciled(f: Facts, runId: string, before: seq<Claim>, after: seq<Claim>,
                             recoveredTasks: set<string>, recoveredUnits: set<string>) {
    && Corresponds(f, runId, after)
    && recoveredTasks == Missing(before, runId, true, ActiveEntities(f, runId, true))
    && recoveredUnits == Missing(before, runId, false, ActiveEntities(f, runId, false))
    && Settled(f, runId, before) <= after
    && (forall i | |before| <= i < |after| :: IsRecovered(f, runId, true, after[i]) || IsRecovered(f, runId, false, after[i]))
    && (forall pool :: Used(after, pool) == Used(Settled(f, runId, before), pool)
          + |Entrants(f, runId, true, pool, recoveredTasks)| + |Entrants(f, runId, false, pool, recoveredUnits)|)
  }

  lemma SettledCorresponds(f: Facts, runId: string, full: seq<Claim>)
    requires UniqueActive(Settled(f, runId, full)) && WellScoped(f, full)
    requires forall topLevel, id | id in ActiveEntities(f, runId, topLevel) :: HasActive(full, runId, topLevel, id)
    ensures Corresponds(f, runId, Settled(f, runId, full))
  {
    var after := Settled(f, runId, full);
    forall topLevel, id ensures HasActive(after, runId, topLevel, id) <==> id in ActiveEntities(f, runId, topLevel) {
      if HasActive(after, runId, topLevel, id) {
        var i :| 0 <= i < |after| && Names(after[i], runId, topLevel, id);
        assert InRun(f, full[i].runId, full[i].scope.TopLevel?, full[i].entityId);
      }
      if id in ActiveEntities(f, runId, topLevel) {
        var i :| 0 <= i < |full| && Names(full[i], runId, topLevel, id);
        assert Names(after[i], runId, topLevel, id);
      }
    }
  }

  /** Settling changes no recovered row. */
  lemma SettledKeepsRecovered(f: Facts, runId: string, before: seq<Claim>, full: seq<Claim>)
    requires before <= full
    requires forall i | |before| <= i < |full| :: IsRecovered(f, runId, true, full[i]) || IsRecovered(f, runId, false, full[i])
    ensures Settled(f, runId, full) == Settled(f, runId, before) + full[|before|..]
  {
    forall i | |before| <= i < |full| ensures SettledRow(f, runId, full[i]) == full[i] {
      assert IsSupported(f, runId, full[i].scope.TopLevel?, full[i].entityId);
    }
  }

  lemma TotalsAfterSettling(f: Facts, runId: string, before: seq<Claim>, full: seq<Claim>, pool: Pool)
    requires before <= full && Settled(f, runId, full) == Settled(f, runId, before) + full[|before|..]
    ensures Used(Settled(f, runId, full), pool) - Used(Settled(f, runId, before), pool) == Used(full, pool) - Used(before, pool)
  {
    assert full == before + full[|before|..];
    UsedConcat(before, full[|before|..], pool);
    UsedConcat(Settled(f, runId, before), full[|before|..], pool);
  }

  lemma RecoveredAndSettled(f: Facts, runId: string, before: seq<Claim>, mid: seq<Claim>, full: seq<Claim>,
                            recoveredTasks: set<string>, recoveredUnits: set<string>)
    requires UniqueActive(Settled(f, runId, full)) && WellScoped(f, full)
    requires Recovering(f, runId, true, before, mid, ActiveEntities(f, runId, true), recoveredTasks)
    requires Recovering(f, runId, false, mid, full, ActiveEntities(f, runId, false), recoveredUnits)
    ensures Reconciled(f, runId, before, Settled(f, runId, full), recoveredTasks, recoveredUnits)
  {
    SettledCorresponds(f, runId, full);
    RecoveredRows(f, runId, before, mid, full, recoveredTasks, recoveredUnits);
    SettledKeepsRecovered(f, runId, before, full);
    forall pool ensures Used(Settled(f, runId, full), pool) == Used(Settled(f, runId, before), pool)
      + |Entrants(f, runId, true, pool, recoveredTasks)| + |Entrants(f, runId, false, pool, recoveredUnits)|
    {
      TotalsAfterSettling(f, runId, before, full, pool);
    }
    RecoveredStay(f, runId, before, full);
  }

  /** Nothing that was recovered is released again. */
  lemma ReleasedAreOld(f: Facts, runId: string, before: seq<Claim>, mid: seq<Claim>, full: seq<Claim>,
                       recoveredTasks: set<string>, recoveredUnits: set<string>)
    requires Recovering(f, runId, true, before, mid, ActiveEntities(f, runId, true), recoveredTasks)
    requires Recovering(f, runId, false, mid, full, ActiveEntities(f, runId, false), recoveredUnits)
    ensures (set i | 0 <= i < |full| && IsUnsupported(f, runId, full[i]) :: full[i].entityId)
      == set i | 0 <= i < |before| && IsUnsupported(f, runId, before[i]) :: before[i].entityId
  {
    RecoveredRows(f, runId, before, mid, full, recoveredTasks, recoveredUnits);
    forall i | |before| <= i < |full| ensures !IsUnsupported(f, runId, full[i]) {
      assert IsSupported(f, runId, full[i].scope.TopLevel?, full[i].entityId);
    }
    forall i | 0 <= i < |before| ensures full[i] == before[i] {}
  }

  lemma RecoveredStay(f: Facts, runId: string, before: seq<Claim>, full: seq<Claim>)
    requires before <= full && Settled(f, runId, full) == Settled(f, runId, before) + full[|before|..]
    requires forall i | |before| <= i < |full| :: IsRecovered(f, runId, true, full[i]) || IsRecovered(f, runId, false, full[i])
    ensures var after := Settled(f, runId, full);
      && Settled(f, runId, before) <= after
      && forall i | |before| <= i < |after| :: IsRecovered(f, runId, true, after[i]) || IsRecovered(f, runId, false, after[i])
  {
    var after := Settled(f, runId, full);
    forall i | |before| <= i < |after| ensures after[i] == full[i] {
      assert after[i] == full[|before|..][i - |before|];
    }
  }

  lemma RecoveredRows(f: Facts, runId: string, before: seq<Claim>, mid: seq<Claim>, full: seq<Claim>,
                      recoveredTasks: set<string>, recoveredUnits: set<string>)
    requires Recovering(f, runId, true, before, mid, ActiveEntities(f, runId, true), recoveredTasks)
    requires Recovering(f, runId, false, mid, full, ActiveEntities(f, runId, false), recoveredUnits)
    ensures before <= full && recoveredUnits == Missing(before, runId, false, ActiveEntities(f, runId, false))
    ensures forall i | |before| <= i < |full| :: IsRecovered(f, runId, true, full[i]) || IsRecovered(f, runId, false, full[i])
  {
    forall i | |before| <= i < |full| ensures IsRecovered(f, runId, true, full[i]) || IsRecovered(f, runId, false, full[i]) {
      if i < |mid| { assert IsRecovered(f, runId, true, mid[i]); }
    }
  }

  lemma CorrespondingIsKept(f: Facts, runId: string, claims: seq<Claim>, recoveredTasks: set<string>, recoveredUnits: set<string>)
    requires Corresponds(f, runId, claims)
    requires recoveredTasks == Missing(claims, runId, true, ActiveEntities(f, runId, true))
    requires recoveredUnits == Missing(claims, runId, false, ActiveEntities(f, runId, false))
    ensures recoveredTasks == {} && recoveredUnits == {} && Settled(f, runId, claims) == claims
    ensures forall i | 0 <= i < |claims| :: !IsUnsupported(f, runId, claims[i])
  {
    forall i | 0 <= i < |claims| ensures !IsUnsupported(f, runId, claims[i]) {
      var c := claims[i];
      if c.state.ClaimActive? && c.runId == runId {
        assert Names(c, runId, c.scope.TopLevel?, c.entityId);
        assert HasActive(claims, runId, c.scope.TopLevel?, c.entityId);
      }
    }
  }

  /** Recovery looks at no limit: a pool is within one afterwards exactly when the supported entities
      that had no claim fit into what the settled claims leave of it. */
  lemma RecoveryStaysWithinExactlyWhatFits(f: Facts, runId: string, before: seq<Claim>, after: seq<Claim>,
                                           recoveredTasks: set<string>, recoveredUnits: set<string>, pool: Pool, limit: nat)
    requires Reconciled(f, runId, before, after, recoveredTasks, recoveredUnits)
    ensures Used(after, pool) <= limit <==>
      |Entrants(f, runId, true, pool, Missing(before, runId, true, ActiveEntities(f, runId, true)))|
      + |Entrants(f, runId, false, pool, Missing(before, runId, false, ActiveEntities(f, runId, false)))|
      <= limit - Used(Settled(f, runId, before), pool)
  {
  }

  /** Two active tasks without claims put two slots into a pool, whatever its limit. */
  lemma RecoveryMayOvershoot(runId: string, a: string, b: string, after: seq<Claim>, recoveredTasks: set<string>, recoveredUnits: set<string>)
    requires a != b
    requires var f := Facts(map[a := TaskRow(runId, Active), b := TaskRow(runId, Active)], map[], map[], map[], map[], map[]);
      Reconciled(f, runId, [], after, recoveredTasks, recoveredUnits)
    ensures Used(after, TopLevelPool(runId)) == 2
  {
    var f := Facts(map[a := TaskRow(runId, Active), b := TaskRow(runId, Active)], map[], map[], map[], map[], map[]);
    assert ActiveEntities(f, runId, true) == {a, b};
    assert Entrants(f, runId, true, TopLevelPool(runId), recoveredTasks) == {a, b};
    assert Entrants(f, runId, false, TopLevelPool(runId), recoveredUnits) == {};
  }
}
