/** What a written snapshot reads as, place by place, and how snapshots are numbered. */
module Readings {
  import opened Common
  import opened Json
  import opened Content
  import opened SnapshotRefs
  import opened Snapshots
  import opened KernelRuns
  import opened Occurrences

  /* -------------------------------------------------------- what is read back */

  /** A leaf is read from a built snapshot exactly where it stood in the given content, unless a member on
      the way is dropped; a member is there exactly when it was given and is not dropped. */
  lemma BuildKeepsExactly(t: Tables, scope: string, scopeId: string, content: Fields, inputs: set<string>, path: seq<Move>, leaf: Json)
    requires Sound(t) && scope in SCOPES && IsLeaf(leaf)
    ensures var after := Step(t, Build(scope, scopeId, content, inputs));
      Sound(after) &&
      var seen := ContentOf(after, NewRef(t, scope, scopeId));
      && seen.Some?
      && (AtPath(Obj(seen.value), path) == Some(leaf) <==>
            AtPath(Obj(content), path) == Some(leaf) && IsOpen(Obj(content), path, Some(scopeId)))
      && (forall k :: k in seen.value <==> k in content && !IsDroppedMember(k, content[k], Some(scopeId)))
  {
    BuildLaw(t, scope, scopeId, content, inputs);
    SanitizingKeepsExactly(content, path, leaf, Some(scopeId));
  }

  /** A derived snapshot reads, at every path of member names, what its sanitised delta puts there, or what
      its base reads where the delta overrides nothing; only a null gives way to what the base has. */
  lemma DeriveReadsExactly(t: Tables, ref: string, delta: Fields, toScope: Option<string>, toScopeId: Option<string>,
                           keys: seq<string>, leaf: Json)
    requires Sound(t) && End(t, ref) in t.rows && OrElse(toScope, RefScope(End(t, ref))) in SCOPES && !leaf.Obj?
    ensures var scopeId := OrElse(toScopeId, t.rows[End(t, ref)].scopeId);
      var after := Step(t, Derive(ref, delta, toScope, toScopeId));
      Sound(after) && ContentOf(t, ref).Some? &&
      var seen := ContentOf(after, NewRef(t, OrElse(toScope, RefScope(End(t, ref))), scopeId));
      var base, given := Obj(ContentOf(t, ref).value), Obj(Sanitize(delta, Some(scopeId)));
      && seen.Some?
      && (AtKeys(Obj(seen.value), keys) == Some(leaf) <==>
            || (AtKeys(given, keys) == Some(leaf) && !(leaf.Null? && AtKeys(base, keys).Some?))
            || (AtKeys(base, keys) == Some(leaf) && !Overrides(given, keys)))
  {
    DeriveLaw(t, ref, delta, toScope, toScopeId);
    MergedAtKeys(ContentOf(t, ref).value, Sanitize(delta, Some(OrElse(toScopeId, t.rows[End(t, ref)].scopeId))), keys, leaf);
  }

  /** A promoted snapshot reads what its source reads but the nulls. */
  lemma PromoteReadsExactly(t: Tables, ref: string, scope: string, toScopeId: Option<string>, keys: seq<string>, leaf: Json)
    requires Sound(t) && End(t, ref) in t.rows && scope in SCOPES && !leaf.Obj?
    ensures var after := Step(t, Promote(ref, scope, toScopeId));
      Sound(after) && ContentOf(t, ref).Some? &&
      var seen := ContentOf(after, NewRef(t, scope, OrElse(toScopeId, t.rows[End(t, ref)].scopeId)));
      && seen.Some?
      && (AtKeys(Obj(seen.value), keys) == Some(leaf) <==> AtKeys(Obj(ContentOf(t, ref).value), keys) == Some(leaf) && !leaf.Null?)
  {
    PromoteLaw(t, ref, scope, toScopeId);
    StrippedAtKeys(ContentOf(t, ref).value, keys, leaf);
  }

  /** A compaction keeps every member when it is told nothing to preserve, and otherwise those it is told
      and five that it always keeps; what it keeps it does not change. */
  lemma CompactionKeepsExactly(t: Tables, ref: string, preserve: set<string>, k: string)
    requires Sound(t) && End(t, ref) in t.rows
    ensures var after := Step(t, Compact(ref, preserve));
      Sound(after) && ContentOf(t, ref).Some? && ContentOf(after, ref).Some? &&
      var before, seen := ContentOf(t, ref).value, ContentOf(after, ref).value;
      && (k in seen <==>
            && k in before
            && (preserve == {} || k in preserve || k in {"contract", "contract_ref", "exports", "blockers", "accepted_decisions"}))
      && (k in seen ==> seen[k] == before[k])
  {
    StepKeepsContent(t, Compact(ref, preserve), ref);
  }

  /** A compaction replaces the snapshot behind the reference by a new current root, under the same scope
      and id, and nothing else changes but the edge from the one to the other. */
  lemma CompactionWritesExactly(t: Tables, ref: string, preserve: set<string>)
    requires Sound(t) && End(t, ref) in t.rows
    ensures var end := End(t, ref);
      ReplacedBy(t, Step(t, Compact(ref, preserve)), end, NewRef(t, RefScope(end), t.rows[end].scopeId), "context compacted")
  {
    FoldIsClean(t, End(t, ref));
    KeptIsClean(Fold(t, End(t, ref)), preserve);
    RewriteReplaces(t, Kept(Fold(t, End(t, ref)), preserve), "context compacted", ref);
  }

  /** So does a rebuild of a snapshot that is stale or invalid; one that is current, or not there, stays. */
  lemma RebuildWritesExactly(t: Tables, ref: string)
    requires Sound(t)
    ensures var end, after := End(t, ref), Step(t, Rebuild(ref));
      if end !in t.rows || t.rows[end].validity == Current then after == t
      else ReplacedBy(t, after, end, NewRef(t, RefScope(end), t.rows[end].scopeId), "invalidated snapshot reconstructed")
  {
    if End(t, ref) in t.rows {
      FoldIsClean(t, End(t, ref));
      RewriteReplaces(t, Fold(t, End(t, ref)), "invalidated snapshot reconstructed", ref);
    }
  }

  ghost predicate ReplacedBy(t: Tables, after: Tables, end: string, made: string, reason: string)
    requires end in t.rows
  {
    && made !in t.rows && made in after.rows && after.order == t.order + [made]
    && (forall r | r in t.rows :: r in after.rows && after.rows[r] == t.rows[r])
    && (forall r | r in after.rows :: r in t.rows || r == made)
    && after.supersessions == t.supersessions[end := made]
    && after.rows[made].base.None? && after.rows[made].validity == Current && after.rows[made].reason == Some(reason)
    && after.rows[made].scopeId == t.rows[end].scopeId && after.rows[made].scopeType == t.rows[end].scopeType
  }

  lemma RewriteReplaces(t: Tables, content: Fields, reason: string, ref: string)
    requires Sound(t) && End(t, ref) in t.rows && Clean(content)
    ensures var end := End(t, ref);
      ReplacedBy(t, Rewritten(t, end, content, reason), end, NewRef(t, RefScope(end), t.rows[end].scopeId), reason)
  {
    var end := End(t, ref);
    assert RowOk(t, end);
    RewriteInputsAreNamed(content);
    NewRefIsFresh(t, RefScope(end), t.rows[end].scopeId);
  }

  /* -------------------------------------------------------------------- rows */

  /** The row a write adds: the next in order, of the scope's storage scope, current, over the given base. */
  lemma WrittenRowExactly(t: Tables, scope: string, scopeId: string, delta: Fields, base: Option<string>,
                          extra: set<string>, supersedes: Option<string>, reason: Option<string>)
    requires Sound(t) && scope in SCOPES
    ensures var after := Append(t, scope, scopeId, delta, base, extra, supersedes, reason);
      var made := NewRef(t, scope, scopeId);
      && made !in t.rows && made in after.rows && after.order == t.order + [made]
      && after.rows == t.rows[made := after.rows[made]]
      && made in after.inputRows && after.inputRows == t.inputRows[made := after.inputRows[made]]
      && after.supersessions == (if supersedes.Some? && "" !in after.rows[made].inputs then t.supersessions[supersedes.value := made]
                                 else t.supersessions)
      && after.inputRows[made] == (if "" in after.rows[made].inputs then {} else after.rows[made].inputs)
      && var row := after.rows[made];
        && row.rowid == |t.order| && row.scopeId == scopeId && row.base == base && row.body == delta
        && row.validity == Current && row.reason == reason
        && row.scopeType == match scope
             case "lane" => "task"
             case "coordinator" => "run"
             case "conversation" => "run"
             case other => other
  {
    NewRefIsFresh(t, scope, scopeId);
  }

  /** A change of validity writes the validity and its reason into the chosen rows and nothing else. */
  lemma MarkedExactly(t: Tables, refs: set<string>, validity: Validity, reason: string)
    ensures var after := Mark(t, refs, validity, reason);
      && after == t.(rows := after.rows)
      && (forall r :: r in after.rows <==> r in t.rows)
      && forall r | r in t.rows :: after.rows[r] ==
           if r in refs then
             var row := t.rows[r];
             Row(row.rowid, row.scopeType, row.scopeId, row.revision, row.base, row.body, row.inputs, row.digest, validity, Some(reason))
           else t.rows[r]
  {
  }

  /* --------------------------------------------------------------- revisions */

  ghost predicate HasRevision(t: Tables, scopeType: string, scopeId: string, n: nat) {
    exists r :: r in t.rows && t.rows[r].scopeType == scopeType && t.rows[r].scopeId == scopeId && t.rows[r].revision == n
  }

  /** The snapshots of every storage scope and id are numbered 1, 2, ... with no gap and no number twice. */
  ghost predicate Numbered(t: Tables) {
    && (forall scopeType, scopeId, n: nat | HasRevision(t, scopeType, scopeId, n) :: n >= 1)
    && (forall scopeType, scopeId, n: nat, m: nat {:trigger HasRevision(t, scopeType, scopeId, n), HasRevision(t, scopeType, scopeId, m)} |
          HasRevision(t, scopeType, scopeId, n) && 1 <= m <= n :: HasRevision(t, scopeType, scopeId, m))
    && (forall r, q | r in t.rows && q in t.rows && r != q ::
          t.rows[r].scopeType != t.rows[q].scopeType || t.rows[r].scopeId != t.rows[q].scopeId
          || t.rows[r].revision != t.rows[q].revision)
  }

  lemma {:induction false} MaxRevisionIsThere(t: Tables, scopeType: string, scopeId: string, n: nat)
    requires HasRows(t, n)
    ensures MaxRevision(t, scopeType, scopeId, n) == 0 || HasRevision(t, scopeType, scopeId, MaxRevision(t, scopeType, scopeId, n))
  {
    if n > 0 { MaxRevisionIsThere(t, scopeType, scopeId, n - 1); }
  }

  lemma MaxRevisionIsLargest(t: Tables, scopeType: string, scopeId: string, n: nat)
    requires Sound(t) && HasRevision(t, scopeType, scopeId, n)
    ensures n <= MaxRevision(t, scopeType, scopeId, |t.order|)
  {
    var r :| r in t.rows && t.rows[r].scopeType == scopeType && t.rows[r].scopeId == scopeId && t.rows[r].revision == n;
    assert RowOk(t, r);
    MaxRevisionBounds(t, scopeType, scopeId, |t.order|, t.rows[r].rowid);
  }

  /** In a numbered table a scope's revisions are exactly those up to the largest. */
  lemma RevisionsExactly(t: Tables, scopeType: string, scopeId: string, n: nat)
    requires Sound(t) && Numbered(t)
    ensures HasRevision(t, scopeType, scopeId, n) <==> 1 <= n <= MaxRevision(t, scopeType, scopeId, |t.order|)
  {
    MaxRevisionIsThere(t, scopeType, scopeId, |t.order|);
    if HasRevision(t, scopeType, scopeId, n) { MaxRevisionIsLargest(t, scopeType, scopeId, n); }
  }

  lemma AddedRevision(t: Tables, after: Tables, made: string, scopeType: string, scopeId: string, n: nat)
    requires made !in t.rows && made in after.rows && after.rows == t.rows[made := after.rows[made]]
    ensures HasRevision(after, scopeType, scopeId, n) <==>
      || HasRevision(t, scopeType, scopeId, n)
      || (after.rows[made].scopeType == scopeType && after.rows[made].scopeId == scopeId && after.rows[made].revision == n)
  {
    if HasRevision(t, scopeType, scopeId, n) {
      var r :| r in t.rows && t.rows[r].scopeType == scopeType && t.rows[r].scopeId == scopeId && t.rows[r].revision == n;
      assert after.rows[r] == t.rows[r];
    }
  }

  lemma NextRowKeepsNumbered(t: Tables, after: Tables, made: string)
    requires Sound(t) && Numbered(t)
    requires made !in t.rows && made in after.rows && after.rows == t.rows[made := after.rows[made]]
    requires after.rows[made].revision == MaxRevision(t, after.rows[made].scopeType, after.rows[made].scopeId, |t.order|) + 1
    ensures Numbered(after)
  {
    var row := after.rows[made];
    forall scopeType, scopeId, n: nat | HasRevision(after, scopeType, scopeId, n) ensures n >= 1 {
      AddedRevision(t, after, made, scopeType, scopeId, n);
    }
    forall scopeType, scopeId, n: nat, m: nat | HasRevision(after, scopeType, scopeId, n) && 1 <= m <= n
      ensures HasRevision(after, scopeType, scopeId, m)
    {
      AddedRevision(t, after, made, scopeType, scopeId, n);
      AddedRevision(t, after, made, scopeType, scopeId, m);
      RevisionsExactly(t, scopeType, scopeId, m);
      RevisionsExactly(t, scopeType, scopeId, n);
    }
    forall r | r in t.rows
      ensures t.rows[r].scopeType != row.scopeType || t.rows[r].scopeId != row.scopeId || t.rows[r].revision != row.revision
    {
      if t.rows[r].scopeType == row.scopeType && t.rows[r].scopeId == row.scopeId {
        assert HasRevision(t, row.scopeType, row.scopeId, t.rows[r].revision);
        MaxRevisionIsLargest(t, row.scopeType, row.scopeId, t.rows[r].revision);
      }
    }
  }

  lemma WrittenKeepsNumbered(t: Tables, scope: string, scopeId: string, delta: Fields, base: Option<string>,
                             extra: set<string>, supersedes: Option<string>, reason: Option<string>)
    requires Sound(t) && Numbered(t)
    ensures Numbered(Written(t, scope, scopeId, delta, base, extra, supersedes, reason))
  {
    if scope in SCOPES {
      NewRefIsFresh(t, scope, scopeId);
      NextRowKeepsNumbered(t, Append(t, scope, scopeId, delta, base, extra, supersedes, reason), NewRef(t, scope, scopeId));
    }
  }

  lemma MarkKeepsNumbered(t: Tables, refs: set<string>, validity: Validity, reason: string)
    requires Numbered(t)
    ensures Numbered(Mark(t, refs, validity, reason))
  {
    var after := Mark(t, refs, validity, reason);
    forall scopeType, scopeId, n: nat ensures HasRevision(after, scopeType, scopeId, n) <==> HasRevision(t, scopeType, scopeId, n) {
      if HasRevision(t, scopeType, scopeId, n) {
        var r :| r in t.rows && t.rows[r].scopeType == scopeType && t.rows[r].scopeId == scopeId && t.rows[r].revision == n;
        assert r in after.rows;
      }
    }
  }

  lemma StepKeepsNumbered(t: Tables, e: Event)
    requires Sound(t) && Numbered(t)
    ensures Numbered(Step(t, e))
  {
    match e
    case Build(scope, scopeId, content, inputs) =>
      WrittenKeepsNumbered(t, scope, scopeId, Admitted(content, scopeId), None, inputs, None, None);
    case Derive(ref, delta, toScope, toScopeId) =>
      var end := End(t, ref);
      if end in t.rows {
        var scopeId := OrElse(toScopeId, t.rows[end].scopeId);
        WrittenKeepsNumbered(t, OrElse(toScope, RefScope(end)), scopeId, Admitted(delta, scopeId), Some(end), {}, None, None);
      }
    case Promote(ref, scope, toScopeId) =>
      var end := End(t, ref);
      if end in t.rows {
        WrittenKeepsNumbered(t, scope, OrElse(toScopeId, t.rows[end].scopeId), Fold(t, end), Some(end), {}, None, None);
      }
    case Compact(ref, preserve) => CompactionKeepsNumbered(t, ref, preserve);
    case Rebuild(ref) => RebuildKeepsNumbered(t, ref);
    case InvalidateRecord(ref, reason) => MarkKeepsNumbered(t, {End(t, ref)}, Invalid, reason);
    case InvalidateRefs(refs, identity) => MarkKeepsNumbered(t, refs, Stale, identity);
  }

  lemma RewrittenKeepsNumbered(t: Tables, end: string, content: Fields, reason: string)
    requires Sound(t) && Numbered(t) && end in t.rows
    ensures Numbered(Rewritten(t, end, content, reason))
  {
    WrittenKeepsNumbered(t, RefScope(end), t.rows[end].scopeId, content, None, InputRefs(Obj(content)), Some(end), Some(reason));
  }

  lemma CompactionKeepsNumbered(t: Tables, ref: string, preserve: set<string>)
    requires Sound(t) && Numbered(t)
    ensures Numbered(Step(t, Compact(ref, preserve)))
  {
    var end := End(t, ref);
    if end in t.rows { RewrittenKeepsNumbered(t, end, Kept(Fold(t, end), preserve), "context compacted"); }
  }

  lemma RebuildKeepsNumbered(t: Tables, ref: string)
    requires Sound(t) && Numbered(t)
    ensures Numbered(Step(t, Rebuild(ref)))
  {
    var end := End(t, ref);
    if end in t.rows { RewrittenKeepsNumbered(t, end, Fold(t, end), "invalidated snapshot reconstructed"); }
  }

  /** Over every run the snapshots of a storage scope and id stay numbered without gap or repetition,
      whichever of the scopes stored there they are written under. */
  lemma {:induction false} RunKeepsNumbered(t: Tables, events: seq<Event>)
    requires Sound(t) && Numbered(t)
    ensures Sound(Run(t, events)) && Numbered(Run(t, events))
    decreases |events|
  {
    if events != [] {
      StepKeepsSound(t, events[0]);
      StepKeepsNumbered(t, events[0]);
      RunKeepsNumbered(Step(t, events[0]), events[1..]);
    }
  }

  /** In every reachable state the next snapshot of a scope takes the number after those there are. */
  lemma NextRevisionFollows(events: seq<Event>, scope: string, scopeId: string) returns (n: nat)
    ensures Sound(EMPTY_TABLES) && Sound(Run(EMPTY_TABLES, events))
    ensures var t := Run(EMPTY_TABLES, events);
      && (forall m: nat :: HasRevision(t, StorageScope(scope), scopeId, m) <==> 1 <= m <= n)
      && NewRef(t, scope, scopeId) == MakeRef(scope, scopeId, n + 1)
  {
    EmptyIsSound();
    RunKeepsNumbered(EMPTY_TABLES, events);
    var t := Run(EMPTY_TABLES, events);
    n := MaxRevision(t, StorageScope(scope), scopeId, |t.order|);
    forall m: nat ensures HasRevision(t, StorageScope(scope), scopeId, m) <==> 1 <= m <= n {
      RevisionsExactly(t, StorageScope(scope), scopeId, m);
    }
  }
}
