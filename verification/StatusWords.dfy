/** The words a receipt's status may be, in capital or small letters, and what each of them asks for. */
module StatusWords {
  import opened Common
  import opened States
  import opened StoreRows
  import opened Dispatch

  ghost predicate Spells(status: string, word: string) {
    && |status| == |word|
    && forall i | 0 <= i < |word| :: status[i] == word[i] || ('A' <= status[i] <= 'Z' && word[i] as int == status[i] as int + 32)
  }

  ghost predicate Says(status: string, words: set<string>) {
    exists w :: w in words && Spells(status, w)
  }

  ghost predicate SaysPending(status: string) {
    Says(status, {"pending", "queued", "submitted", "accepted_pending"})
  }

  ghost predicate SaysActive(status: string) {
    Says(status, {"active", "acknowledged", "accepted", "running"})
  }

  ghost predicate SaysLost(status: string) {
    Spells(status, "lost")
  }

  ghost predicate SaysFailed(status: string) {
    Says(status, {"failed", "error"})
  }

  ghost predicate SaysHandedOff(status: string) {
    Spells(status, "handoff_ready")
  }

  ghost predicate SaysClosed(status: string) {
    Says(status, {"completed", "succeeded", "success", "closed"})
  }

  ghost predicate SaysUnresolved(status: string) {
    Spells(status, "unresolved")
  }

  ghost predicate SaysEnded(status: string) {
    SaysLost(status) || SaysFailed(status) || SaysHandedOff(status) || SaysClosed(status)
  }

  ghost predicate IsSmall(word: string) {
    forall i | 0 <= i < |word| :: 'a' <= word[i] <= 'z' || word[i] == '_'
  }

  lemma SpelledExactly(status: string, word: string)
    requires IsSmall(word)
    ensures Spells(status, word) <==> Lower(status) == word
  {
    var small := Lower(status);
    if small == word {
      forall i | 0 <= i < |word| ensures status[i] == word[i] || ('A' <= status[i] <= 'Z' && word[i] as int == status[i] as int + 32) {
        assert small[i] == word[i];
      }
    }
  }

  lemma SaidExactly(status: string, words: set<string>)
    requires forall w | w in words :: IsSmall(w)
    ensures Says(status, words) <==> Lower(status) in words
  {
    forall w | w in words ensures Spells(status, w) <==> Lower(status) == w {
      SpelledExactly(status, w);
    }
  }

  lemma WordsAreExact(status: string)
    ensures SaysPending(status) <==> Lower(status) in PENDING
    ensures SaysActive(status) <==> Lower(status) in ACTIVE
    ensures SaysLost(status) <==> Lower(status) == "lost"
    ensures SaysFailed(status) <==> Lower(status) in {"failed", "error"}
    ensures SaysHandedOff(status) <==> Lower(status) == "handoff_ready"
    ensures SaysClosed(status) <==> Lower(status) in {"completed", "succeeded", "success", "closed"}
    ensures SaysUnresolved(status) <==> Lower(status) == "unresolved"
  {
    OpenWordsAreExact(status);
    SpelledExactly(status, "lost");
    SaidExactly(status, {"failed", "error"});
    SpelledExactly(status, "handoff_ready");
    SaidExactly(status, {"completed", "succeeded", "success", "closed"});
  }

  lemma OpenWordsAreExact(status: string)
    ensures SaysPending(status) <==> Lower(status) in PENDING
    ensures SaysActive(status) <==> Lower(status) in ACTIVE
    ensures SaysUnresolved(status) <==> Lower(status) == "unresolved"
  {
    SaidExactly(status, PENDING);
    SaidExactly(status, ACTIVE);
    SpelledExactly(status, "unresolved");
  }

  lemma StatusesAreApart(s: string)
    ensures s in PENDING || s == "unresolved" ==> s !in FAILED && s !in SUCCEEDED
    ensures s in FAILED ==> s !in SUCCEEDED
  {
    assert s in PENDING ==> s[0] == 'p' || s[0] == 'q' || s[..2] == "su" || s[0] == 'a';
    assert s in FAILED ==> s[0] == 'f' || s[0] == 'e' || s[0] == 'l';
    assert s in SUCCEEDED ==> s[0] == 'c' || s[0] == 's' || s[0] == 'h';
    assert s in PENDING && s[0] == 's' ==> s[2] == 'b';
    assert s in SUCCEEDED && s[0] == 's' ==> s[2] == 'c';
  }

  /** What a receipt makes of the state of a task attempt. */
  ghost predicate AttemptStateFollows(status: string, before: AttemptState, after: AttemptState) {
    && (SaysPending(status) ==> after == before)
    && (SaysLost(status) ==> after == Lost)
    && (SaysFailed(status) ==> after == AttemptFailed)
    && (SaysHandedOff(status) ==> after == HandoffReady)
    && (SaysClosed(status) ==> after == Closed)
    && (!SaysPending(status) && !SaysEnded(status) ==>
          after == if before.AttemptCreated? || before.Dispatched? || before.Acknowledged? then AttemptActive else before)
  }

  lemma NextStateFollows(status: string, before: AttemptState)
    ensures AttemptStateFollows(status, before, NextAttemptState(status, before))
  {
    WordsAreExact(status);
    StatusesAreApart(Lower(status));
  }

  /** What a receipt makes of the state of a work unit's attempt. */
  ghost predicate UnitAttemptStateFollows(status: string, before: UnitAttemptState, after: UnitAttemptState) {
    && (SaysPending(status) || SaysUnresolved(status) ==> after == before)
    && (SaysLost(status) || SaysFailed(status) ==> after == UnitAttemptFailed)
    && (SaysHandedOff(status) || SaysClosed(status) ==> after == UnitAttemptClosed)
    && (!SaysPending(status) && !SaysUnresolved(status) && !SaysEnded(status) ==>
          after == if before.UnitAttemptCreated? || before.Delegated? then UnitAttemptActive else before)
  }

  lemma NextUnitAttemptStateFollows(status: string, before: UnitAttemptState)
    ensures UnitAttemptStateFollows(status, before, NextUnitAttemptState(status, before))
  {
    WordsAreExact(status);
    StatusesAreApart(Lower(status));
  }

  /** And of the unit: a failure fails it and anything under way or done keeps it active, unless it is
      blocked or has ended. */
  ghost predicate UnitStateFollows(status: string, attempt: UnitAttemptState, before: UnitState, after: UnitState) {
    if before.UnitBlocked? || before.UnitCompleted? || before.UnitFailed? || before.UnitCancelled? then after == before
    else
      && (SaysPending(status) || SaysUnresolved(status) ==> after == before)
      && (SaysLost(status) || SaysFailed(status) ==> after == UnitFailed)
      && (SaysHandedOff(status) || SaysClosed(status) ==> after == UnitActive)
      && (!SaysPending(status) && !SaysUnresolved(status) && !SaysEnded(status) ==>
            after == if attempt.UnitAttemptActive? then UnitActive else before)
  }

  lemma AskedUnitStateFollows(status: string, attempt: UnitAttemptState, before: UnitState)
    ensures UnitStateFollows(status, attempt, before, AdvancedUnitState(before, NextUnitState(status, attempt)))
  {
    WordsAreExact(status);
    StatusesAreApart(Lower(status));
  }

  /** A status is progress when it ends what was pending or under way, or takes what was pending up. */
  lemma ProgressExactly(known: string, incoming: string)
    ensures CanProgress(known, incoming) <==>
      (SaysPending(known) && !SaysPending(incoming)) || (SaysActive(known) && SaysEnded(incoming))
  {
    WordsAreExact(known);
    WordsAreExact(incoming);
    if SaysActive(known) && SaysEnded(incoming) { ActiveIsNotEnded(Lower(known)); }
  }

  lemma ActiveIsNotEnded(s: string)
    requires s in ACTIVE
    ensures s !in FAILED && s !in SUCCEEDED
  {
    assert s[0] == 'a' || s[0] == 'r';
    forall e | e in FAILED + SUCCEEDED ensures e[0] != 'a' && e[0] != 'r' {
    }
  }
}
