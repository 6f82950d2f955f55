/** The signal journal: an append-only sequence read through cursors.  Following one run from a cursor
    delivers each of its later signals exactly once, whatever is appended in between. */
module Journal {
  import opened Common
  import opened Json

  datatype Signal = Signal(runId: string, scopeId: string, kind: string, payload: Json, seqNo: nat)

  /** Numbers rise along the journal and none is zero. */
  ghost predicate Increasing(log: seq<Signal>) {
    && (forall i | 0 <= i < |log| :: log[i].seqNo > 0)
    && (forall i, j | 0 <= i < j < |log| :: log[i].seqNo < log[j].seqNo)
  }

  ghost predicate UpTo(log: seq<Signal>, last: nat) {
    forall i | 0 <= i < |log| :: log[i].seqNo <= last
  }

  /** The signals of a run after an exclusive cursor. */
  function After(log: seq<Signal>, runId: string, cursor: nat): seq<Signal> {
    if log == [] then []
    else
      var s := log[|log| - 1];
      var before := After(log[..|log| - 1], runId, cursor);
      if s.runId == runId && s.seqNo > cursor then before + [s] else before
  }

  /** The signals of a run after one cursor and up to another. */
  function Between(log: seq<Signal>, runId: string, from: nat, to: nat): seq<Signal> {
    if log == [] then []
    else
      var s := log[|log| - 1];
      var before := Between(log[..|log| - 1], runId, from, to);
      if s.runId == runId && from < s.seqNo <= to then before + [s] else before
  }

  function Take(signals: seq<Signal>, limit: Option<nat>): seq<Signal> {
    if limit.Some? && limit.value < |signals| then signals[..limit.value] else signals
  }

  datatype Batch = Batch(signals: seq<Signal>, cursor: nat, hasMore: bool)

  /** One poll: the next signals, the cursor after them, and whether the batch stopped short. */
  function Poll(log: seq<Signal>, runId: string, cursor: nat, limit: Option<nat>): Batch {
    var signals := Take(After(log, runId, cursor), limit);
    var next := if signals == [] then cursor else signals[|signals| - 1].seqNo;
    Batch(signals, next, limit.Some? && |signals| == limit.value > 0 && After(log, runId, next) != [])
  }

  /* --------------------------------------------------------------------- order */

  lemma {:induction false} AfterSelects(log: seq<Signal>, runId: string, cursor: nat)
    ensures forall s | s in After(log, runId, cursor) :: s in log && s.runId == runId && s.seqNo > cursor
  {
    if log != [] { AfterSelects(log[..|log| - 1], runId, cursor); }
  }

  lemma {:induction false} AfterKeepsOrder(log: seq<Signal>, runId: string, cursor: nat)
    requires Increasing(log)
    ensures Increasing(After(log, runId, cursor))
  {
    if log != [] {
      var init, s := log[..|log| - 1], log[|log| - 1];
      AfterKeepsOrder(init, runId, cursor);
      AfterSelects(init, runId, cursor);
      var before := After(init, runId, cursor);
      forall i | 0 <= i < |before| ensures before[i].seqNo < s.seqNo {
        assert before[i] in init;
      }
    }
  }

  /** Nothing of the run after the cursor is missing. */
  lemma {:induction false} AfterIsComplete(log: seq<Signal>, runId: string, cursor: nat, s: Signal)
    ensures s in After(log, runId, cursor) <==> s in log && s.runId == runId && s.seqNo > cursor
  {
    if log != [] {
      AfterIsComplete(log[..|log| - 1], runId, cursor, s);
      assert log == log[..|log| - 1] + [log[|log| - 1]];
    }
  }

  lemma {:induction false} NothingAfterTheEnd(log: seq<Signal>, runId: string, cursor: nat)
    requires forall i | 0 <= i < |log| && log[i].runId == runId :: log[i].seqNo <= cursor
    ensures After(log, runId, cursor) == []
  {
    if log != [] { NothingAfterTheEnd(log[..|log| - 1], runId, cursor); }
  }

  lemma {:induction false} BetweenIsBounded(log: seq<Signal>, runId: string, from: nat, to: nat)
    ensures UpTo(Between(log, runId, from, to), to)
  {
    if log != [] { BetweenIsBounded(log[..|log| - 1], runId, from, to); }
  }

  /** A later cursor splits what an earlier one sees in two, in order. */
  lemma {:induction false} CursorSplits(log: seq<Signal>, runId: string, from: nat, to: nat)
    requires Increasing(log) && from <= to
    ensures After(log, runId, from) == Between(log, runId, from, to) + After(log, runId, to)
  {
    if log != [] {
      var init, s := log[..|log| - 1], log[|log| - 1];
      CursorSplits(init, runId, from, to);
      if s.seqNo <= to { NothingAfterTheEnd(init, runId, to); }
    }
  }

  /** What the window holds is what is numbered up to its end. */
  lemma WindowCuts(log: seq<Signal>, runId: string, from: nat, to: nat)
    requires Increasing(log) && from <= to
    ensures var all, seen := After(log, runId, from), Between(log, runId, from, to);
      && seen <= all
      && forall i | 0 <= i < |all| :: i < |seen| <==> all[i].seqNo <= to
  {
    var all, seen, rest := After(log, runId, from), Between(log, runId, from, to), After(log, runId, to);
    CursorSplits(log, runId, from, to);
    BetweenIsBounded(log, runId, from, to);
    AfterSelects(log, runId, to);
    forall i | 0 <= i < |all| ensures i < |seen| <==> all[i].seqNo <= to {
      assert all[i] == (seen + rest)[i];
      if i >= |seen| { assert all[i] == rest[i - |seen|] && rest[i - |seen|] in rest; }
    }
  }

  /** What is taken is what is numbered up to the last one taken. */
  lemma TakingCuts(all: seq<Signal>, k: nat, from: nat)
    requires Increasing(all) && k <= |all| && forall i | 0 <= i < |all| :: all[i].seqNo > from
    ensures var to := if k == 0 then from else all[k - 1].seqNo;
      from <= to && forall i | 0 <= i < |all| :: i < k <==> all[i].seqNo <= to
  {
  }

  /** A batch is exactly the run's signals between its two cursors. */
  lemma BatchIsWindow(log: seq<Signal>, runId: string, cursor: nat, limit: Option<nat>)
    requires Increasing(log)
    ensures var b := Poll(log, runId, cursor, limit);
      b.signals == Between(log, runId, cursor, b.cursor) && cursor <= b.cursor
  {
    var all, b := After(log, runId, cursor), Poll(log, runId, cursor, limit);
    var k := |b.signals|;
    assert b.signals == all[..k];
    AfterKeepsOrder(log, runId, cursor);
    AfterSelects(log, runId, cursor);
    assert forall i | 0 <= i < |all| :: all[i] in all;
    TakingCuts(all, k, cursor);
    WindowCuts(log, runId, cursor, b.cursor);
    OneSplit(all, |Between(log, runId, cursor, b.cursor)|, k, b.cursor);
  }

  lemma OneSplit(all: seq<Signal>, n: nat, k: nat, cursor: nat)
    requires n <= |all| && k <= |all|
    requires forall i | 0 <= i < |all| :: i < n <==> all[i].seqNo <= cursor
    requires forall i | 0 <= i < |all| :: i < k <==> all[i].seqNo <= cursor
    ensures n == k
  {
    assert n < |all| ==> all[n].seqNo > cursor;
    assert k < |all| ==> all[k].seqNo > cursor;
  }

  /** A poll says there is more exactly when there is, unless it asked for nothing: a limit of zero is
      always answered with no more. */
  lemma HasMoreIsExact(log: seq<Signal>, runId: string, cursor: nat, limit: Option<nat>)
    requires Increasing(log)
    ensures var b := Poll(log, runId, cursor, limit);
      var more := After(log, runId, b.cursor) != [];
      && (b.hasMore == more <==> limit != Some(0) || !more)
      && (limit == Some(0) ==> b == Batch([], cursor, false))
  {
    var b := Poll(log, runId, cursor, limit);
    BatchIsWindow(log, runId, cursor, limit);
    CursorSplits(log, runId, cursor, b.cursor);
  }

  /** A poll gives as many signals as are left, up to its limit, and the first of them. */
  lemma BatchIsFull(log: seq<Signal>, runId: string, cursor: nat, limit: Option<nat>)
    ensures var b, left := Poll(log, runId, cursor, limit), After(log, runId, cursor);
      && b.signals <= left
      && |b.signals| == if limit.None? || |left| <= limit.value then |left| else limit.value
  {
  }

  /** A limit of zero hides a signal that is there. */
  lemma ZeroLimitHidesMore(s: Signal)
    requires s.seqNo > 0
    ensures After([s], s.runId, 0) == [s] && !Poll([s], s.runId, 0, Some(0)).hasMore
  {
    assert [s][..0] == [];
    assert After([], s.runId, 0) == [];
  }

  /* ------------------------------------------------------------- a follower's run */

  /** A journal, its last number, and a follower of one run with what it has been given so far. */
  datatype State = State(log: seq<Signal>, last: nat, cursor: nat, delivered: seq<Signal>)

  /** Appends may be to any run; numbers skipped by the storage are never used. */
  datatype Event =
    | Append(runId: string, scopeId: string, kind: string, payload: Json, skipped: nat)
    | Follow(limit: Option<nat>)

  function Step(s: State, runId: string, e: Event): State {
    match e
    case Append(to, scopeId, kind, payload, skipped) =>
      var number := s.last + 1 + skipped;
      s.(log := s.log + [Signal(to, scopeId, kind, payload, number)], last := number)
    case Follow(limit) =>
      var b := Poll(s.log, runId, s.cursor, limit);
      s.(cursor := b.cursor, delivered := s.delivered + b.signals)
  }

  function Run(s: State, runId: string, events: seq<Event>): State
    decreases |events|
  {
    if events == [] then s else Run(Step(s, runId, events[0]), runId, events[1..])
  }

  /** What was delivered is the run's signals from where the follower began up to its cursor. */
  ghost predicate Following(s: State, runId: string, from: nat) {
    && Increasing(s.log) && UpTo(s.log, s.last)
    && from <= s.cursor && (s.cursor == from || s.cursor <= s.last)
    && s.delivered == Between(s.log, runId, from, s.cursor)
  }

  lemma {:induction false} EmptyWindow(log: seq<Signal>, runId: string, at: nat)
    ensures Between(log, runId, at, at) == []
  {
    if log != [] { EmptyWindow(log[..|log| - 1], runId, at); }
  }

  lemma {:induction false} WindowsJoin(log: seq<Signal>, runId: string, a: nat, b: nat, c: nat)
    requires Increasing(log) && a <= b <= c
    ensures Between(log, runId, a, c) == Between(log, runId, a, b) + Between(log, runId, b, c)
  {
    if log != [] {
      var init, s := log[..|log| - 1], log[|log| - 1];
      WindowsJoin(init, runId, a, b, c);
      if s.seqNo <= b { NothingBetween(init, runId, b, c); }
    }
  }

  lemma {:induction false} NothingBetween(log: seq<Signal>, runId: string, from: nat, to: nat)
    requires UpTo(log, from)
    ensures Between(log, runId, from, to) == []
  {
    if log != [] { NothingBetween(log[..|log| - 1], runId, from, to); }
  }

  lemma StepFollows(s: State, runId: string, from: nat, e: Event)
    requires Following(s, runId, from)
    ensures Following(Step(s, runId, e), runId, from)
  {
    match e {
      case Append(to, scopeId, kind, payload, skipped) =>
        var after := Step(s, runId, e);
        assert after.log[..|s.log|] == s.log;
        if s.cursor == from { EmptyWindow(s.log, runId, from); EmptyWindow(after.log, runId, from); }
      case Follow(limit) =>
        var b := Poll(s.log, runId, s.cursor, limit);
        BatchIsWindow(s.log, runId, s.cursor, limit);
        WindowsJoin(s.log, runId, from, s.cursor, b.cursor);
        AfterSelects(s.log, runId, s.cursor);
        if b.signals != [] { assert b.signals[|b.signals| - 1] in After(s.log, runId, s.cursor); }
    }
  }

  /** Over every interleaving of appends and polls with any limits, a follower is given the run's
      signals after its starting cursor in order, each once and none left out: what it was given and
      what it has yet to see make up exactly those signals. */
  lemma {:induction false} EachSignalExactlyOnce(s: State, runId: string, from: nat, events: seq<Event>)
    requires Following(s, runId, from)
    ensures var after := Run(s, runId, events);
      && Following(after, runId, from)
      && after.delivered + After(after.log, runId, after.cursor) == After(after.log, runId, from)
      && Increasing(after.delivered)
    decreases |events|
  {
    if events == [] {
      CursorSplits(s.log, runId, from, s.cursor);
      AfterKeepsOrder(s.log, runId, from);
      assert forall i | 0 <= i < |s.delivered| :: s.delivered[i] == After(s.log, runId, from)[i];
    } else {
      StepFollows(s, runId, from, events[0]);
      EachSignalExactlyOnce(Step(s, runId, events[0]), runId, from, events[1..]);
    }
  }

  /** A follower that starts with an empty hand, anywhere in any journal, misses nothing of its run from
      there on and is given nothing twice, whatever is appended meanwhile. */
  lemma FollowersMissNothing(log: seq<Signal>, last: nat, runId: string, from: nat, events: seq<Event>)
    requires Increasing(log) && UpTo(log, last)
    ensures var after := Run(State(log, last, from, []), runId, events);
      && after.delivered + After(after.log, runId, after.cursor) == After(after.log, runId, from)
      && Increasing(after.delivered)
  {
    EmptyWindow(log, runId, from);
    EachSignalExactlyOnce(State(log, last, from, []), runId, from, events);
  }

  predicate OnlyPolls(events: seq<Event>) {
    forall e | e in events :: e.Follow? && e.limit != Some(0)
  }

  /** When nothing more is appended, as many polls with positive limits as signals are left deliver
      them all. */
  lemma {:induction false} PollsCatchUp(s: State, runId: string, from: nat, events: seq<Event>)
    requires Following(s, runId, from) && OnlyPolls(events) && |After(s.log, runId, s.cursor)| <= |events|
    ensures Run(s, runId, events).delivered == After(s.log, runId, from)
    decreases |events|
  {
    CursorSplits(s.log, runId, from, s.cursor);
    if events == [] {
      assert s.delivered + [] == s.delivered;
    } else {
      assert events[0] in events && forall e | e in events[1..] :: e in events;
      var b := Poll(s.log, runId, s.cursor, events[0].limit);
      StepFollows(s, runId, from, events[0]);
      BatchIsWindow(s.log, runId, s.cursor, events[0].limit);
      CursorSplits(s.log, runId, s.cursor, b.cursor);
      PollsCatchUp(Step(s, runId, events[0]), runId, from, events[1..]);
    }
  }

  /* ----------------------------------------------------------------- the journal */

  class SignalJournal {
    var records: seq<Signal>
    var lastSeq: nat

    ghost predicate Valid()
      reads this
    {
      Increasing(records) && UpTo(records, lastSeq)
    }

    constructor ()
      ensures Valid() && records == [] && lastSeq == 0
    {
      records, lastSeq := [], 0;
    }

    method AppendSignal(runId: string, scopeId: string, kind: string, payload: Json, skipped: nat) returns (number: nat)
      requires Valid()
      modifies this
      ensures Valid() && lastSeq == number
      ensures records == old(records) + [Signal(runId, scopeId, kind, payload, number)]
      ensures number > old(lastSeq) && forall s | s in old(records) :: s.seqNo < number
      ensures forall follower, at, given ::
        Step(State(old(records), old(lastSeq), at, given), follower, Append(runId, scopeId, kind, payload, skipped))
          == State(records, lastSeq, at, given)
    {
      number := lastSeq + 1 + skipped;
      records := records + [Signal(runId, scopeId, kind, payload, number)];
      lastSeq := number;
    }

    method Read(runId: string, cursor: nat, limit: Option<nat>) returns (signals: seq<Signal>)
      ensures signals == Take(After(records, runId, cursor), limit)
    {
      signals := [];
      if limit == Some(0) { return; }
      var i := 0;
      while i < |records|
        invariant 0 <= i <= |records|
        invariant signals == After(records[..i], runId, cursor)
      {
        assert records[..i + 1][..i] == records[..i];
        if records[i].runId == runId && records[i].seqNo > cursor {
          signals := signals + [records[i]];
        }
        i := i + 1;
      }
      assert records[..i] == records;
      if limit.Some? && limit.value < |signals| {
        signals := signals[..limit.value];
      }
    }

    /** One poll without waiting. */
    method FollowOnce(runId: string, cursor: nat, limit: Option<nat>) returns (batch: Batch)
      requires Valid()
      ensures batch == Poll(records, runId, cursor, limit)
      ensures limit != Some(0) ==> (batch.hasMore <==> After(records, runId, batch.cursor) != [])
    {
      HasMoreIsExact(records, runId, cursor, limit);
      if limit == Some(0) {
        return Batch([], cursor, false);
      }
      var signals := Read(runId, cursor, limit);
      var hasMore := false;
      if limit.Some? && |signals| == limit.value {
        var rest := Read(runId, signals[|signals| - 1].seqNo, Some(1));
        hasMore := rest != [];
      }
      batch := Batch(signals, if signals != [] then signals[|signals| - 1].seqNo else cursor, hasMore);
    }

    /** The last number of a run, zero for none. */
    method Cursor(runId: string) returns (cursor: nat)
      requires Valid()
      ensures forall s | s in records && s.runId == runId :: s.seqNo <= cursor
      ensures cursor == 0 || exists s | s in records :: s.runId == runId && s.seqNo == cursor
      ensures After(records, runId, cursor) == []
    {
      cursor := 0;
      var i := 0;
      while i < |records|
        invariant 0 <= i <= |records|
        invariant forall k | 0 <= k < i && records[k].runId == runId :: records[k].seqNo <= cursor
        invariant cursor == 0 || exists k | 0 <= k < i :: records[k].runId == runId && records[k].seqNo == cursor
      {
        if records[i].runId == runId && records[i].seqNo > cursor { cursor := records[i].seqNo; }
        i := i + 1;
      }
      NothingAfterTheEnd(records, runId, cursor);
    }
  }
}
