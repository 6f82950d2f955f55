/** The Context Kernel as a transition system over the snapshot tables: what each
    operation does to them, and what every run keeps. */
module KernelRuns {
  import opened Common
  import opened Json
  import opened Content
  import opened SnapshotRefs
  import opened Snapshots

  datatype Event =
    | Build(scope: string, scopeId: string, content: Fields, inputs: set<string>)
    | Derive(ref: string, delta: Fields, toScope: Option<string>, toScopeId: Option<string>)
    | Promote(ref: string, scope: string, toScopeId: Option<string>)
    | Compact(ref: string, preserve: set<string>)
    | Rebuild(ref: string)
    | InvalidateRecord(ref: string, reason: string)
    | InvalidateRefs(refs: set<string>, identity: string)

  /** What a build or a derivation stores of the content it is given. */
  function Admitted(content: Fields, scopeId: string): Fields {
    OrderedContent(Sanitize(content, Some(scopeId)))
  }

  const ALWAYS_PRESERVED: set<string> := {"contract", "contract_ref", "exports", "blockers", "accepted_decisions"}

  /** What a compaction keeps: everything unless it is told what to preserve. */
  function Kept(content: Fields, preserve: set<string>): Fields {
    if preserve == {} then content
    else map k | k in content && (k in preserve || k in ALWAYS_PRESERVED) :: content[k]
  }

  ghost function End(t: Tables, ref: string): string
    requires Sound(t)
  {
    Resolve(t, RefValue(ref))
  }

  /** A write that the scope check of the table lets through, or nothing. */
  function Written(t: Tables, scope: string, scopeId: string, delta: Fields, base: Option<string>,
                   extra: set<string>, supersedes: Option<string>, reason: Option<string>): Tables
    requires HasRows(t, |t.order|)
  {
    if scope in SCOPES then Append(t, scope, scopeId, delta, base, extra, supersedes, reason) else t
  }

  /** The reference a write returns. */
  function WrittenRef(t: Tables, scope: string, scopeId: string): Option<string>
    requires HasRows(t, |t.order|)
  {
    if scope in SCOPES then Some(NewRef(t, scope, scopeId)) else None
  }

  function OrElse(choice: Option<string>, default: string): string {
    if choice.Some? then choice.value else default
  }

  /** A rewrite of a snapshot as a root that supersedes it. */
  ghost function Rewritten(t: Tables, end: string, content: Fields, reason: string): Tables
    requires Sound(t) && end in t.rows
  {
    Written(t, RefScope(end), t.rows[end].scopeId, content, None, InputRefs(Obj(content)), Some(end), Some(reason))
  }

  ghost function Step(t: Tables, e: Event): Tables
    requires Sound(t)
  {
    match e
    case Build(scope, scopeId, content, inputs) =>
      Written(t, scope, scopeId, Admitted(content, scopeId), None, inputs, None, None)
    case Derive(ref, delta, toScope, toScopeId) =>
      var end := End(t, ref);
      if end !in t.rows then t
      else
        var scopeId := OrElse(toScopeId, t.rows[end].scopeId);
        Written(t, OrElse(toScope, RefScope(end)), scopeId, Admitted(delta, scopeId), Some(end), {}, None, None)
    case Promote(ref, scope, toScopeId) =>
      var end := End(t, ref);
      if end !in t.rows then t
      else Written(t, scope, OrElse(toScopeId, t.rows[end].scopeId), Fold(t, end), Some(end), {}, None, None)
    case Compact(ref, preserve) =>
      var end := End(t, ref);
      if end !in t.rows then t else Rewritten(t, end, Kept(Fold(t, end), preserve), "context compacted")
    case Rebuild(ref) =>
      var end := End(t, ref);
      if end !in t.rows || t.rows[end].validity.Current? then t
      else Rewritten(t, end, Fold(t, end), "invalidated snapshot reconstructed")
    case InvalidateRecord(ref, reason) => Mark(t, {End(t, ref)}, Invalid, reason)
    case InvalidateRefs(refs, identity) => Mark(t, refs, Stale, identity)
  }

  ghost function Run(t: Tables, events: seq<Event>): Tables
    requires Sound(t)
    decreases |events|
  {
    if events == [] then t
    else
      StepKeepsSound(t, events[0]);
      Run(Step(t, events[0]), events[1..])
  }

  /* ------------------------------------------------------------- soundness */

  lemma AdmittedIsClean(content: Fields, scopeId: string)
    ensures Clean(Admitted(content, scopeId))
    ensures Admitted(content, scopeId) == Sanitize(content, Some(scopeId))
  {
    SanitizedIsClean(Obj(content), Some(scopeId));
    OrderedKeepsClean(Sanitize(content, Some(scopeId)));
  }

  lemma KeptIsClean(content: Fields, preserve: set<string>)
    requires Clean(content)
    ensures Clean(Kept(content, preserve))
  {
  }

  /** A write keeps the tables sound whether or not its scope is accepted. */
  lemma WrittenKeepsSound(t: Tables, scope: string, scopeId: string, delta: Fields, base: Option<string>,
                          extra: set<string>, supersedes: Option<string>, reason: Option<string>)
    requires Sound(t) && Clean(delta)
    requires base.Some? ==> base.value in t.rows && "" !in extra
    requires supersedes.Some? ==> supersedes.value in t.rows
    ensures var after := Written(t, scope, scopeId, delta, base, extra, supersedes, reason);
      Sound(after) && KeepsHistory(t, after)
  {
    if scope in SCOPES {
      AppendKeepsSound(t, scope, scopeId, delta, base, extra, supersedes, reason);
    } else {
      assert forall r | r in t.rows :: KeptRow(t, t, r);
    }
  }

  /** Every operation keeps the tables sound and never rewrites what a row contributes. */
  lemma StepKeepsSound(t: Tables, e: Event)
    requires Sound(t)
    ensures Sound(Step(t, e)) && KeepsHistory(t, Step(t, e))
  {
    match e
    case Build(scope, scopeId, content, inputs) =>
      AdmittedIsClean(content, scopeId);
      WrittenKeepsSound(t, scope, scopeId, Admitted(content, scopeId), None, inputs, None, None);
    case Derive(ref, delta, toScope, toScopeId) =>
      NoStepKeepsHistory(t);
      var end := End(t, ref);
      if end in t.rows {
        var scopeId := OrElse(toScopeId, t.rows[end].scopeId);
        AdmittedIsClean(delta, scopeId);
        WrittenKeepsSound(t, OrElse(toScope, RefScope(end)), scopeId, Admitted(delta, scopeId), Some(end), {}, None, None);
      }
    case Promote(ref, scope, toScopeId) =>
      NoStepKeepsHistory(t);
      var end := End(t, ref);
      if end in t.rows {
        FoldIsClean(t, end);
        WrittenKeepsSound(t, scope, OrElse(toScopeId, t.rows[end].scopeId), Fold(t, end), Some(end), {}, None, None);
      }
    case Compact(ref, preserve) =>
      NoStepKeepsHistory(t);
      var end := End(t, ref);
      if end in t.rows {
        FoldIsClean(t, end);
        KeptIsClean(Fold(t, end), preserve);
        RewrittenKeepsSound(t, end, Kept(Fold(t, end), preserve), "context compacted");
      }
    case Rebuild(ref) =>
      NoStepKeepsHistory(t);
      var end := End(t, ref);
      if end in t.rows {
        FoldIsClean(t, end);
        RewrittenKeepsSound(t, end, Fold(t, end), "invalidated snapshot reconstructed");
      }
    case InvalidateRecord(ref, reason) => MarkKeepsSound(t, {End(t, ref)}, Invalid, reason);
    case InvalidateRefs(refs, identity) => MarkKeepsSound(t, refs, Stale, identity);
  }

  lemma NoStepKeepsHistory(t: Tables)
    ensures KeepsHistory(t, t)
  {
    forall r | r in t.rows ensures KeptRow(t, t, r) {}
  }

  lemma RewrittenKeepsSound(t: Tables, end: string, content: Fields, reason: string)
    requires Sound(t) && end in t.rows && Clean(content)
    ensures Sound(Rewritten(t, end, content, reason)) && KeepsHistory(t, Rewritten(t, end, content, reason))
  {
    WrittenKeepsSound(t, RefScope(end), t.rows[end].scopeId, content, None, InputRefs(Obj(content)), Some(end), Some(reason));
  }

  lemma EmptyIsSound()
    ensures Sound(EMPTY_TABLES)
  {
  }

  lemma {:induction false} RunKeepsSound(t: Tables, events: seq<Event>)
    requires Sound(t)
    ensures Sound(Run(t, events))
    decreases |events|
  {
    if events != [] {
      StepKeepsSound(t, events[0]);
      RunKeepsSound(Step(t, events[0]), events[1..]);
    }
  }

  /* ------------------------------------------------- what a new snapshot holds */

  /** A snapshot written as a root reads back as exactly what was written. */
  lemma WrittenRootReadsBack(t: Tables, scope: string, scopeId: string, delta: Fields,
                             extra: set<string>, supersedes: Option<string>, reason: Option<string>)
    requires Sound(t) && scope in SCOPES && Clean(delta)
    requires supersedes.Some? ==> supersedes.value in t.rows
    ensures var after := Append(t, scope, scopeId, delta, None, extra, supersedes, reason);
      var ref := NewRef(t, scope, scopeId);
      Sound(after) && ref in after.rows && Fold(after, ref) == delta
  {
    AppendKeepsSound(t, scope, scopeId, delta, None, extra, supersedes, reason);
    MergeIntoEmpty(delta);
  }

  /** A snapshot written over a base reads back as the base merged with the delta. */
  lemma WrittenOverBaseReadsBack(t: Tables, scope: string, scopeId: string, delta: Fields, base: string)
    requires Sound(t) && scope in SCOPES && Clean(delta) && base in t.rows
    ensures var after := Append(t, scope, scopeId, delta, Some(base), {}, None, None);
      var ref := NewRef(t, scope, scopeId);
      Sound(after) && ref in after.rows && Fold(after, ref) == Merge(Fold(t, base), delta)
  {
    AppendKeepsSound(t, scope, scopeId, delta, Some(base), {}, None, None);
    FoldIsStable(t, Append(t, scope, scopeId, delta, Some(base), {}, None, None), base);
  }

  /** Nothing supersedes a reference that has just been made. */
  lemma NewRefResolvesToItself(t: Tables, after: Tables, scope: string, scopeId: string, supersedes: Option<string>)
    requires Sound(t) && Sound(after) && scope in SCOPES
    requires supersedes.Some? ==> supersedes.value in t.rows
    requires after.supersessions == if supersedes.Some?
      then t.supersessions[supersedes.value := NewRef(t, scope, scopeId)] else t.supersessions
    ensures End(after, NewRef(t, scope, scopeId)) == NewRef(t, scope, scopeId)
  {
    var ref := NewRef(t, scope, scopeId);
    NewRefIsFresh(t, scope, scopeId);
    SupersededIsARow(t, ref);
    MadeRefIsNormal(scope, scopeId, MaxRevision(t, StorageScope(scope), scopeId, |t.order|) + 1);
  }

  lemma BuildInputsAreNamedExactly(inputs: set<string>, delta: Fields)
    ensures "" in CausalInputs(inputs, delta, None) <==> "" in inputs
  {
    InputRefsAreNamed(Obj(delta));
    if "" in inputs { assert RefValue("") == ""; }
  }

  /** A build stores and shows its content whatever inputs it is given; the input table gets them
      exactly when none is empty.  Otherwise the build fails and its snapshot stays all the same. */
  lemma BuildLaw(t: Tables, scope: string, scopeId: string, content: Fields, inputs: set<string>)
    requires Sound(t) && scope in SCOPES
    ensures var after := Step(t, Build(scope, scopeId, content, inputs));
      var ref := NewRef(t, scope, scopeId);
      && Sound(after) && ref in after.rows && ref in after.inputRows
      && ContentOf(after, ref) == Some(Sanitize(content, Some(scopeId)))
      && (after.inputRows[ref] == after.rows[ref].inputs <==> "" !in inputs)
  {
    var after := Step(t, Build(scope, scopeId, content, inputs));
    AdmittedIsClean(content, scopeId);
    var admitted := Admitted(content, scopeId);
    WrittenRootReadsBack(t, scope, scopeId, admitted, inputs, None, None);
    NewRefResolvesToItself(t, after, scope, scopeId, None);
    BuildInputsAreNamedExactly(inputs, admitted);
    assert after.rows[NewRef(t, scope, scopeId)].inputs == CausalInputs(inputs, admitted, None);
  }

  /** Derive law: reading a derived snapshot is reading its base merged with the sanitised delta. */
  lemma DeriveLaw(t: Tables, ref: string, delta: Fields, toScope: Option<string>, toScopeId: Option<string>)
    requires Sound(t) && End(t, ref) in t.rows
    ensures var scope := OrElse(toScope, RefScope(End(t, ref)));
      var scopeId := OrElse(toScopeId, t.rows[End(t, ref)].scopeId);
      var after := Step(t, Derive(ref, delta, toScope, toScopeId));
      && Sound(after)
      && (scope in SCOPES ==>
        ContentOf(after, NewRef(t, scope, scopeId)) == Some(Merge(ContentOf(t, ref).value, Sanitize(delta, Some(scopeId)))))
      && (scope !in SCOPES ==> after == t)
  {
    var end := End(t, ref);
    var scope, scopeId := OrElse(toScope, RefScope(end)), OrElse(toScopeId, t.rows[end].scopeId);
    var after := Step(t, Derive(ref, delta, toScope, toScopeId));
    StepKeepsSound(t, Derive(ref, delta, toScope, toScopeId));
    if scope in SCOPES {
      AdmittedIsClean(delta, scopeId);
      WrittenOverBaseReadsBack(t, scope, scopeId, Admitted(delta, scopeId), end);
      NewRefResolvesToItself(t, after, scope, scopeId, None);
    }
  }

  /** Promotion law: the promoted snapshot reads as its source without the null members, so it
      reads the same exactly when the source has no null member at any object level. */
  lemma PromoteLaw(t: Tables, ref: string, scope: string, toScopeId: Option<string>)
    requires Sound(t) && End(t, ref) in t.rows && scope in SCOPES
    ensures var scopeId := OrElse(toScopeId, t.rows[End(t, ref)].scopeId);
      var after := Step(t, Promote(ref, scope, toScopeId));
      && Sound(after)
      && ContentOf(after, NewRef(t, scope, scopeId)) == Some(StripNulls(ContentOf(t, ref).value))
      && (ContentOf(after, NewRef(t, scope, scopeId)) == ContentOf(t, ref) <==> NullFree(ContentOf(t, ref).value))
  {
    var end := End(t, ref);
    var scopeId := OrElse(toScopeId, t.rows[end].scopeId);
    var after := Step(t, Promote(ref, scope, toScopeId));
    StepKeepsSound(t, Promote(ref, scope, toScopeId));
    FoldIsClean(t, end);
    WrittenOverBaseReadsBack(t, scope, scopeId, Fold(t, end), end);
    NewRefResolvesToItself(t, after, scope, scopeId, None);
    MergeWithItself(Fold(t, end));
  }

  lemma NullSummaryIsKept(lane: Option<string>)
    ensures Sanitize(map["summary" := Null], lane) == map["summary" := Null]
  {
    var content: Fields := map["summary" := Null];
    SummaryIsKept();
    assert |"summary"| != |"lane_summary"|;
    assert !IsDroppedMember("summary", content["summary"], lane);
    assert SanitizeValue(content["summary"], lane) == Null;
    var kept := Sanitize(content, lane);
    assert forall k | k in kept :: k in content;
    assert kept["summary"] == Null;
  }

  /** A snapshot that holds a null summary, and its promotion, which holds nothing. */
  lemma PromotionLosesNull(scope: string, scopeId: string) returns (t: Tables, ref: string)
    requires scope in SCOPES
    ensures Sound(t) && End(t, ref) in t.rows
    ensures ContentOf(t, ref) == Some(map["summary" := Null])
    ensures var after := Step(t, Promote(ref, scope, Some(scopeId)));
      Sound(after) && ContentOf(after, NewRef(t, scope, scopeId)) == Some(map[])
  {
    var content: Fields := map["summary" := Null];
    t, ref := Step(EMPTY_TABLES, Build(scope, scopeId, content, {})), NewRef(EMPTY_TABLES, scope, scopeId);
    BuildLaw(EMPTY_TABLES, scope, scopeId, content, {});
    NullSummaryIsKept(Some(scopeId));
    PromoteLaw(t, ref, scope, Some(scopeId));
    assert StripNulls(content) == map[];
  }

  /* ------------------------------------------------------ what readers see */

  lemma NotSupersedingKeepsContent(t: Tables, after: Tables, ref: string)
    requires Sound(t) && Sound(after) && KeepsHistory(t, after)
    requires after.supersessions == t.supersessions
    requires End(t, ref) in t.rows
    ensures ContentOf(after, ref) == ContentOf(t, ref)
  {
    ResolveIsStable(t, after, RefValue(ref));
    FoldIsStable(t, after, End(t, ref));
  }

  /** The inputs of a rewrite are those its content names, and none is empty. */
  lemma RewriteInputsAreNamed(content: Fields)
    ensures "" !in CausalInputs(InputRefs(Obj(content)), content, None)
  {
    InputRefsAreNamed(Obj(content));
  }

  /** Rewriting a snapshot redirects its readers to the new content and leaves all others alone. */
  lemma RewritingChangesOnlyItsReaders(t: Tables, end: string, content: Fields, reason: string, ref: string)
    requires Sound(t) && end in t.rows && end !in t.supersessions && Clean(content)
    requires End(t, ref) in t.rows
    ensures var after := Rewritten(t, end, content, reason);
      && Sound(after)
      && ContentOf(after, ref) == if End(t, ref) == end then Some(content) else ContentOf(t, ref)
  {
    var after := Rewritten(t, end, content, reason);
    RewrittenKeepsSound(t, end, content, reason);
    RewriteInputsAreNamed(content);
    assert RowOk(t, end);
    var scope, scopeId := RefScope(end), t.rows[end].scopeId;
    var replacement := NewRef(t, scope, scopeId);
    AppendKeepsSound(t, scope, scopeId, content, None, InputRefs(Obj(content)), Some(end), Some(reason));
    ResolveEnds(t, RefValue(ref));
    ResolveAfterSuperseding(t, after, end, replacement, RefValue(ref));
    WrittenRootReadsBack(t, scope, scopeId, content, InputRefs(Obj(content)), Some(end), Some(reason));
    if End(t, ref) != end { FoldIsStable(t, after, End(t, ref)); }
  }

  /** The replacement a rewrite makes is what the reference then stands for, and it is current. */
  lemma RewriteIsReached(t: Tables, content: Fields, reason: string, ref: string)
    requires Sound(t) && End(t, ref) in t.rows && Clean(content)
    ensures var end := End(t, ref);
      var after, made := Rewritten(t, end, content, reason), NewRef(t, RefScope(end), t.rows[end].scopeId);
      && RefScope(end) in SCOPES && end !in t.supersessions
      && Sound(after) && made in after.rows && after.rows[made].validity.Current?
      && End(after, ref) == made
  {
    var end := End(t, ref);
    RewrittenKeepsSound(t, end, content, reason);
    RewriteInputsAreNamed(content);
    assert RowOk(t, end);
    ResolveEnds(t, RefValue(ref));
    NewRefIsFresh(t, RefScope(end), t.rows[end].scopeId);
    ResolveAfterSuperseding(t, Rewritten(t, end, content, reason), end, NewRef(t, RefScope(end), t.rows[end].scopeId), RefValue(ref));
  }

  /** The compaction an event performs on the readers of a reference, if any. */
  ghost predicate CompactsLossily(t: Tables, e: Event, ref: string)
    requires Sound(t)
  {
    e.Compact? && e.preserve != {} && End(t, e.ref) == End(t, ref)
  }

  /** No operation changes what an existing reference reads as, except a compaction told what to
      preserve, which keeps exactly the preserved members. */
  lemma StepKeepsContent(t: Tables, e: Event, ref: string)
    requires Sound(t) && End(t, ref) in t.rows
    ensures Sound(Step(t, e)) && End(Step(t, e), ref) in Step(t, e).rows
    ensures ContentOf(Step(t, e), ref) ==
      if CompactsLossily(t, e, ref) then Some(Kept(ContentOf(t, ref).value, e.preserve)) else ContentOf(t, ref)
  {
    StepKeepsSound(t, e);
    var after := Step(t, e);
    if (e.Compact? || (e.Rebuild? && after != t)) && End(t, e.ref) in t.rows {
      var end := End(t, e.ref);
      FoldIsClean(t, end);
      ResolveEnds(t, RefValue(e.ref));
      if e.Compact? {
        KeptIsClean(Fold(t, end), e.preserve);
        RewritingChangesOnlyItsReaders(t, end, Kept(Fold(t, end), e.preserve), "context compacted", ref);
      } else {
        RewritingChangesOnlyItsReaders(t, end, Fold(t, end), "invalidated snapshot reconstructed", ref);
      }
    } else {
      NotSupersedingKeepsContent(t, after, ref);
    }
  }

  /** Compaction without a preserve list and stale rebuild are invisible over whole runs: a
      reference keeps reading as the same content whatever else happens. */
  lemma {:induction false} RunKeepsContent(t: Tables, events: seq<Event>, ref: string)
    requires Sound(t) && End(t, ref) in t.rows
    requires forall e | e in events :: e.Compact? ==> e.preserve == {}
    ensures Sound(Run(t, events)) && ContentOf(Run(t, events), ref) == ContentOf(t, ref)
    decreases |events|
  {
    RunKeepsSound(t, events);
    if events != [] {
      StepKeepsContent(t, events[0], ref);
      RunKeepsContent(Step(t, events[0]), events[1..], ref);
    }
  }

  /** In every reachable state, what a reference reads as holds no dropped key at any depth and is
      the left fold of the merge over its base chain. */
  lemma ReachableContentIsCleanReplay(events: seq<Event>, ref: string)
    ensures Sound(EMPTY_TABLES) && Sound(Run(EMPTY_TABLES, events))
    ensures var t := Run(EMPTY_TABLES, events);
      var seen := ContentOf(t, ref);
      seen.Some? ==>
        && Clean(seen.value)
        && (forall r | r in Chain(t, End(t, ref)) :: r in t.rows)
        && seen.value == Replay(Bodies(t, Chain(t, End(t, ref))))
  {
    EmptyIsSound();
    RunKeepsSound(EMPTY_TABLES, events);
    var t := Run(EMPTY_TABLES, events);
    if End(t, ref) in t.rows {
      FoldIsClean(t, End(t, ref));
      FoldIsReplayOfChain(t, End(t, ref));
    }
  }
}
