/** Write leases: acquiring, expiring and releasing them at arbitrary times. */
module Leases {
  import opened Common
  import opened StoreRows

  type LeaseTable = map<string, Lease>

  /** The write sets of leases in state active are pairwise disjoint. */
  ghost predicate Exclusive(leases: LeaseTable) {
    forall a, b | a in leases && b in leases && a != b && leases[a].state.LeaseActive? && leases[b].state.LeaseActive? ::
      leases[a].writeSet !! leases[b].writeSet
  }

  function ExpiredAt(lease: Lease, now: int): Lease {
    if lease.state.LeaseActive? && lease.expiresAt <= now then lease.(state := LeaseExpired) else lease
  }

  function Expire(leases: LeaseTable, now: int): LeaseTable {
    map id | id in leases :: ExpiredAt(leases[id], now)
  }

  /** Some active, unexpired lease holds a requested path. */
  predicate Conflicts(leases: LeaseTable, writeSet: set<string>, now: int) {
    exists id | id in leases ::
      leases[id].state.LeaseActive? && leases[id].expiresAt > now && writeSet * leases[id].writeSet != {}
  }

  datatype Event =
    | Acquire(id: string, scope: TargetType, scopeId: string, ownerId: string, writeSet: set<string>, now: int, ttl: int)
    | ExpireAll(now: int)
    | Release(id: string, now: int)

  function Step(leases: LeaseTable, e: Event): LeaseTable {
    match e
    case Acquire(id, scope, scopeId, ownerId, writeSet, now, ttl) =>
      var live := Expire(leases, now);
      if id in leases || Conflicts(live, writeSet, now) then leases
      else live[id := Lease(scope, scopeId, ownerId, writeSet, LeaseActive, now, now + ttl, None)]
    case ExpireAll(now) => Expire(leases, now)
    case Release(id, now) =>
      if id in leases && leases[id].state.LeaseActive?
      then leases[id := leases[id].(state := LeaseReleased, releasedAt := Some(now))]
      else leases
  }

  function Run(leases: LeaseTable, events: seq<Event>): LeaseTable
    decreases |events|
  {
    if events == [] then leases else Run(Step(leases, events[0]), events[1..])
  }

  /** A lease keeps its identity, and once it has left the active state its whole row is final. */
  ghost predicate LeaseMovesOn(before: Lease, after: Lease) {
    && after.writeSet == before.writeSet && after.ownerId == before.ownerId
    && after.scope == before.scope && after.scopeId == before.scopeId
    && after.acquiredAt == before.acquiredAt && after.expiresAt == before.expiresAt
    && (!before.state.LeaseActive? ==> after == before)
  }

  ghost predicate MovesOn(before: LeaseTable, after: LeaseTable) {
    forall id | id in before :: id in after && LeaseMovesOn(before[id], after[id])
  }

  lemma StepIsSafe(leases: LeaseTable, e: Event)
    requires Exclusive(leases)
    ensures Exclusive(Step(leases, e)) && MovesOn(leases, Step(leases, e))
  {
    if e.Acquire? {
      var live := Expire(leases, e.now);
      assert Exclusive(live);
      if !Conflicts(live, e.writeSet, e.now) {
        forall other | other in live && live[other].state.LeaseActive? ensures e.writeSet !! live[other].writeSet {
          assert live[other].expiresAt > e.now;
          EmptyMeetIsDisjoint(e.writeSet, live[other].writeSet);
        }
      }
    }
  }

  /** Over every sequence of acquisitions, expiries and releases, at whatever times, active leases
      never share a path, and a lease that has left the active state never returns to it. */
  lemma {:induction false} RunIsSafe(leases: LeaseTable, events: seq<Event>)
    requires Exclusive(leases)
    ensures Exclusive(Run(leases, events)) && MovesOn(leases, Run(leases, events))
    decreases |events|
  {
    if events != [] {
      StepIsSafe(leases, events[0]);
      RunIsSafe(Step(leases, events[0]), events[1..]);
    }
  }

  /** The lease holds one of the paths at that moment. */
  ghost predicate IsInTheWay(lease: Lease, paths: set<string>, now: int) {
    lease.state == LeaseActive && now < lease.expiresAt && exists path :: path in paths && path in lease.writeSet
  }

  /** Every lease that is active and due has expired, and every other row is as it was. */
  ghost predicate DueExpired(before: LeaseTable, after: LeaseTable, now: int) {
    && (forall id | id in before :: id in after && after[id] ==
          if before[id].state == LeaseActive && before[id].expiresAt <= now
          then Lease(before[id].scope, before[id].scopeId, before[id].ownerId, before[id].writeSet, LeaseExpired,
                     before[id].acquiredAt, before[id].expiresAt, before[id].releasedAt)
          else before[id])
    && forall id | id in after :: id in before
  }

  lemma ConflictsExactly(leases: LeaseTable, paths: set<string>, now: int)
    ensures Conflicts(leases, paths, now) <==> exists id :: id in leases && IsInTheWay(leases[id], paths, now)
    ensures Conflicts(Expire(leases, now), paths, now) <==> Conflicts(leases, paths, now)
  {
    var live := Expire(leases, now);
    forall id | id in leases
      ensures leases[id].state.LeaseActive? && leases[id].expiresAt > now ==> live[id] == leases[id]
      ensures IsInTheWay(leases[id], paths, now) <==>
        leases[id].state.LeaseActive? && leases[id].expiresAt > now && paths * leases[id].writeSet != {}
    {
      if exists path :: path in paths && path in leases[id].writeSet {
        var path :| path in paths && path in leases[id].writeSet;
        assert path in paths * leases[id].writeSet;
      }
      if paths * leases[id].writeSet != {} {
        var path :| path in paths * leases[id].writeSet;
      }
    }
    if id :| id in leases && IsInTheWay(leases[id], paths, now) { assert Conflicts(leases, paths, now); }
    if Conflicts(leases, paths, now) {
      var id :| id in leases && leases[id].state.LeaseActive? && leases[id].expiresAt > now && paths * leases[id].writeSet != {};
      assert live[id] == leases[id];
    }
  }

  /** An acquisition succeeds exactly when its id is new and no lease that is active and unexpired at
      that moment holds one of its paths.  It then adds an active row with its owner, scope and paths,
      acquired now and expiring after its time to live, and expires what is due; it fails without any
      change. */
  lemma AcquireSucceedsExactly(leases: LeaseTable, id: string, scope: TargetType, scopeId: string,
                               ownerId: string, writeSet: set<string>, now: int, ttl: int)
    ensures var after := Step(leases, Acquire(id, scope, scopeId, ownerId, writeSet, now, ttl));
      if id !in leases && !(exists other :: other in leases && IsInTheWay(leases[other], writeSet, now)) then
        && id in after && after[id] == Lease(scope, scopeId, ownerId, writeSet, LeaseActive, now, now + ttl, None)
        && DueExpired(leases, after - {id}, now)
      else after == leases
  {
    ConflictsExactly(leases, writeSet, now);
  }

  lemma ExpiringAgain(leases: LeaseTable, now: int)
    ensures Expire(Expire(leases, now), now) == Expire(leases, now)
  {
  }

  /** A release ends an active lease at its time, keeps the rest of its row and every other row, and does
      nothing to a lease that is not active. */
  lemma ReleaseIsExact(leases: LeaseTable, id: string, now: int)
    ensures var after := Step(leases, Event.Release(id, now));
      if id in leases && leases[id].state == LeaseActive then
        var lease := leases[id];
        after == leases[id := Lease(lease.scope, lease.scopeId, lease.ownerId, lease.writeSet, LeaseReleased,
                                    lease.acquiredAt, lease.expiresAt, Some(now))]
      else after == leases
  {
  }

  /** The call may end the lease: it releases it, or happens at or after its expiry. */
  ghost predicate MayEnd(e: Event, id: string, expiresAt: int) {
    match e
    case Acquire(_, _, _, _, _, now, _) => expiresAt <= now
    case ExpireAll(now) => expiresAt <= now
    case Release(released, _) => released == id
  }

  lemma {:induction false} HeldUntilEnded(leases: LeaseTable, events: seq<Event>, id: string)
    requires id in leases && leases[id].state.LeaseActive?
    requires forall e | e in events :: !MayEnd(e, id, leases[id].expiresAt)
    ensures id in Run(leases, events) && Run(leases, events)[id] == leases[id]
    decreases |events|
  {
    if events != [] {
      assert events[0] in events && forall e | e in events[1..] :: e in events;
      HeldUntilEnded(Step(leases, events[0]), events[1..], id);
    }
  }

  /** After a granted acquisition, and any calls that neither release the lease nor happen at or after its
      expiry, its row is as it was granted, and whoever asks for one of its paths before the expiry is
      refused. */
  lemma GrantExcludesOthers(leases: LeaseTable, id: string, scope: TargetType, scopeId: string, ownerId: string,
                            writeSet: set<string>, now: int, ttl: int, events: seq<Event>, other: Event)
    requires id !in leases && !(exists blocking :: blocking in leases && IsInTheWay(leases[blocking], writeSet, now))
    requires forall e | e in events :: !MayEnd(e, id, now + ttl)
    requires other.Acquire? && other.now < now + ttl && exists path :: path in writeSet && path in other.writeSet
    ensures var after := Run(Step(leases, Acquire(id, scope, scopeId, ownerId, writeSet, now, ttl)), events);
      && id in after && after[id] == Lease(scope, scopeId, ownerId, writeSet, LeaseActive, now, now + ttl, None)
      && Step(after, other) == after
  {
    AcquireSucceedsExactly(leases, id, scope, scopeId, ownerId, writeSet, now, ttl);
    var granted := Step(leases, Acquire(id, scope, scopeId, ownerId, writeSet, now, ttl));
    HeldUntilEnded(granted, events, id);
    var after := Run(granted, events);
    assert IsInTheWay(after[id], other.writeSet, other.now);
    AcquireSucceedsExactly(after, other.id, other.scope, other.scopeId, other.ownerId, other.writeSet, other.now, other.ttl);
  }

  class LeaseStore {
    var leases: LeaseTable

    constructor ()
      ensures leases == map[]
    {
      leases := map[];
    }

    method AcquireLease(id: string, scope: TargetType, scopeId: string, ownerId: string, writeSet: set<string>, now: int, ttl: int)
      returns (acquired: bool)
      modifies this
      ensures leases == Step(old(leases), Acquire(id, scope, scopeId, ownerId, writeSet, now, ttl))
      ensures acquired <==>
        id !in old(leases) && !exists other :: other in old(leases) && IsInTheWay(old(leases)[other], writeSet, now)
      ensures acquired ==> id in leases && leases[id] == Lease(scope, scopeId, ownerId, writeSet, LeaseActive, now, now + ttl, None)
      ensures acquired ==> DueExpired(old(leases), leases - {id}, now)
      ensures !acquired ==> leases == old(leases)
    {
      var before := leases;
      ConflictsExactly(before, writeSet, now);
      AcquireSucceedsExactly(before, id, scope, scopeId, ownerId, writeSet, now, ttl);
      var _ := ExpireLeases(now);
      var active := set other | other in leases && leases[other].state.LeaseActive? && leases[other].expiresAt > now;
      while active != {}
        invariant leases == Expire(before, now)
        invariant forall other | other in leases && other !in active ::
          !(leases[other].state.LeaseActive? && leases[other].expiresAt > now && writeSet * leases[other].writeSet != {})
        invariant forall other | other in active ::
          other in leases && leases[other].state.LeaseActive? && leases[other].expiresAt > now
        decreases active
      {
        var other :| other in active;
        if writeSet != {} && leases[other].writeSet != {} && writeSet * leases[other].writeSet != {} {
          leases := before;  // the transaction rolls back
          return false;
        }
        active := active - {other};
      }
      if id in leases {
        leases := before;
        return false;
      }
      leases := leases[id := Lease(scope, scopeId, ownerId, writeSet, LeaseActive, now, now + ttl, None)];
      return true;
    }

    method ExpireLeases(now: int) returns (count: nat)
      modifies this
      ensures leases == Step(old(leases), ExpireAll(now)) && DueExpired(old(leases), leases, now)
      ensures count == |set id | id in leases && leases[id] != old(leases)[id]|
    {
      var due := set id | id in leases && leases[id].state.LeaseActive? && leases[id].expiresAt <= now;
      ghost var before := leases;
      leases := map id | id in leases :: if id in due then leases[id].(state := LeaseExpired) else leases[id];
      assert leases == Expire(before, now);
      assert due == set id | id in leases && leases[id] != before[id];
      return |due|;
    }

    method ReleaseLease(id: string, now: int) returns (lease: Option<Lease>)
      modifies this
      ensures leases == Step(old(leases), Event.Release(id, now))
      ensures id in old(leases) && old(leases)[id].state == LeaseActive ==>
        leases == old(leases)[id := old(leases)[id].(state := LeaseReleased, releasedAt := Some(now))]
      ensures !(id in old(leases) && old(leases)[id].state == LeaseActive) ==> leases == old(leases)
      ensures lease == if id in leases then Some(leases[id]) else None
    {
      if id in leases && leases[id].state.LeaseActive? {
        leases := leases[id := leases[id].(state := LeaseReleased, releasedAt := Some(now))];
      }
      return if id in leases then Some(leases[id]) else None;
    }
  }
}
