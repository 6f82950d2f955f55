/** The Context Kernel object: the snapshot tables with its two caches and its in-memory
    replacement table.  Every method is proved against the transition system. */
module ContextKernels {
  import opened Common
  import opened Json
  import opened Content
  import opened SnapshotRefs
  import opened Snapshots
  import opened Invalidation
  import opened KernelRuns

  datatype ProjectionKey = ProjectionKey(ref: string, view: ViewName, digest: Source)

  datatype Materialized = Materialized(digest: Source, content: Fields)

  /** Some earlier artifact table under which the projection was computed. */
  ghost predicate IsProjectionOf(projected: Fields, content: Fields, view: ViewName, artifacts: Artifacts) {
    exists seen {:trigger Project(content, view, seen)} :: Registered(seen, artifacts) && projected == Project(content, view, seen)
  }

  ghost predicate CacheEntryOk(t: Tables, ref: string, entry: Materialized)
    requires Sound(t)
  {
    ref in t.rows && entry.digest == t.rows[ref].digest && entry.content == Fold(t, ref)
  }

  ghost predicate ProjectionEntryOk(t: Tables, artifacts: Artifacts, key: ProjectionKey, projected: Fields)
    requires Sound(t)
  {
    key.ref in t.rows && IsProjectionOf(projected, Fold(t, key.ref), key.view, artifacts)
  }

  ghost predicate CachesOk(t: Tables, artifacts: Artifacts, materialized: map<string, Materialized>,
                           projections: map<ProjectionKey, Fields>)
    requires Sound(t)
  {
    && (forall r | r in materialized :: CacheEntryOk(t, r, materialized[r]))
    && (forall k | k in projections :: ProjectionEntryOk(t, artifacts, k, projections[k]))
  }

  ghost predicate DigestsKept(before: Tables, after: Tables) {
    forall r | r in before.rows :: r in after.rows && after.rows[r].digest == before.rows[r].digest
  }

  /** The in-memory replacements repeat the supersession table. */
  ghost predicate RepeatsSupersessions(t: Tables, replacements: map<string, string>) {
    forall r | r in replacements :: r in t.supersessions && t.supersessions[r] == replacements[r]
  }

  /** Cached entries outlive any change that keeps history: no row they depend on ever changes. */
  lemma CachesSurvive(before: Tables, after: Tables, artifacts: Artifacts,
                      materialized: map<string, Materialized>, projections: map<ProjectionKey, Fields>)
    requires Sound(before) && Sound(after) && KeepsHistory(before, after) && DigestsKept(before, after)
    requires CachesOk(before, artifacts, materialized, projections)
    ensures CachesOk(after, artifacts, materialized, projections)
  {
    forall r | r in materialized ensures CacheEntryOk(after, r, materialized[r]) {
      assert CacheEntryOk(before, r, materialized[r]);
      FoldIsStable(before, after, r);
    }
    forall k | k in projections ensures ProjectionEntryOk(after, artifacts, k, projections[k]) {
      assert ProjectionEntryOk(before, artifacts, k, projections[k]);
      FoldIsStable(before, after, k.ref);
    }
  }

  lemma CacheInsert(t: Tables, artifacts: Artifacts, materialized: map<string, Materialized>,
                    projections: map<ProjectionKey, Fields>, ref: string, entry: Materialized)
    requires Sound(t) && CachesOk(t, artifacts, materialized, projections)
    requires CacheEntryOk(t, ref, entry)
    ensures CachesOk(t, artifacts, materialized[ref := entry], projections)
  {
  }

  lemma RegisteredIsTransitive(a: Artifacts, b: Artifacts, c: Artifacts)
    requires Registered(a, b) && Registered(b, c)
    ensures Registered(a, c)
  {
  }

  /** A projection computed under any earlier artifact table is safe under the current one. */
  lemma CachedProjectionIsSafe(projected: Fields, content: Fields, view: ViewName, artifacts: Artifacts)
    requires Clean(content) && IsProjectionOf(projected, content, view, artifacts)
    ensures IsSafeView(projected, view, artifacts)
  {
    var seen {:trigger Project(content, view, seen)} :| Registered(seen, artifacts) && projected == Project(content, view, seen);
    ProjectionIsSafe(content, view, seen);
    VisibleStaysVisible(Obj(projected), view, seen, artifacts);
  }

  lemma SupersessionsGrow(before: Tables, after: Tables, ref: string, supersedes: Option<string>, replacements: map<string, string>)
    requires RepeatsSupersessions(before, replacements)
    requires after.supersessions == before.supersessions
      || (supersedes.Some? && supersedes.value !in before.supersessions
          && after.supersessions == before.supersessions[supersedes.value := ref])
    ensures RepeatsSupersessions(after, replacements)
  {
  }

  class ContextKernel {
    var tables: Tables
    var artifacts: Artifacts
    var replacements: map<string, string>
    var materialized: map<string, Materialized>
    var projections: map<ProjectionKey, Fields>

    ghost predicate Valid()
      reads this
    {
      && Sound(tables)
      && RepeatsSupersessions(tables, replacements)
      && CachesOk(tables, artifacts, materialized, projections)
    }

    /** Open a kernel on existing tables, as at start or after a restart: the caches are empty. */
    constructor (stored: Tables, registered: Artifacts)
      requires Sound(stored)
      ensures Valid() && tables == stored && artifacts == registered
    {
      tables, artifacts := stored, registered;
      replacements, materialized, projections := map[], map[], map[];
    }

    /** Drop the entries of the given references; no references means every entry. */
    method Evict(refs: set<string>)
      requires Valid()
      modifies this`materialized, this`projections
      ensures Valid()
      ensures refs == {} ==> materialized == map[] && projections == map[]
      ensures refs != {} ==>
        && materialized == old(materialized) - refs
        && projections == map k | k in old(projections) && k.ref !in refs :: old(projections)[k]
    {
      if refs == {} {
        materialized, projections := map[], map[];
      } else {
        materialized := map r | r in materialized && r !in refs :: materialized[r];
        projections := map k | k in projections && k.ref !in refs :: projections[k];
      }
    }

    /** Alternate between the supersession table and the in-memory replacements until neither moves. */
    method ResolveReplacement(snapshotRef: string) returns (ref: string)
      requires Valid()
      ensures ref == End(tables, snapshotRef)
    {
      ref := RefValue(snapshotRef);
      var seen: set<string> := {};
      ghost var moved := false;
      while ref !in seen
        invariant Resolve(tables, ref) == End(tables, snapshotRef)
        invariant !moved ==> seen == {} && ref == RefValue(snapshotRef)
        invariant moved ==> ref !in tables.supersessions && ref !in seen
        decreases !moved
      {
        seen := seen + {ref};
        var resolved, cycle := ResolveSnapshotRef(tables, ref);
        ResolveEnds(tables, ref);
        if resolved != ref {
          ResolveDoesNotReturn(tables, ref);
          ref := resolved;
          moved := true;
          continue;
        }
        if ref in replacements {
          assert false;  // it would be in the supersession table too
        }
        break;
      }
    }

    /** Load the base chain of a stored snapshot and merge it from the root, unless a cached
        materialisation with the row's digest is at hand. */
    method ReconstructContent(snapshotRef: string) returns (content: Option<Fields>)
      requires Valid()
      modifies this`materialized
      ensures Valid()
      ensures content == ContentOf(tables, snapshotRef)
    {
      var ref := ResolveReplacement(snapshotRef);
      if ref !in tables.rows {
        return None;
      }
      var digest := tables.rows[ref].digest;
      if ref in materialized && materialized[ref].digest == digest {
        assert CacheEntryOk(tables, ref, materialized[ref]);
        return Some(materialized[ref].content);
      }
      var chain := LoadChain(tables, ref);
      FoldIsReplayOfChain(tables, ref);
      var merged := MergeChain(tables, chain);
      FoldIsClean(tables, ref);
      SanitizeKeepsExactlyTheClean(Obj(merged));
      OrderedKeepsClean(merged);
      merged := OrderedContent(Sanitize(merged, None));
      CacheInsert(tables, artifacts, materialized, projections, ref, Materialized(digest, merged));
      materialized := materialized[ref := Materialized(digest, merged)];
      return Some(merged);
    }

    /** One snapshot write to the tables: the row, its inputs, the supersession.  An empty input
        reference is refused after the row is in. */
    method WriteRow(scope: string, scopeId: string, delta: Fields, base: Option<string>,
                    extra: set<string>, supersedes: Option<string>, reason: Option<string>) returns (newRef: string, recorded: bool)
      requires HasRows(tables, |tables.order|)
      modifies this`tables
      ensures tables == Append(old(tables), scope, scopeId, delta, base, extra, supersedes, reason)
      ensures newRef == NewRef(old(tables), scope, scopeId)
      ensures recorded <==> "" !in CausalInputs(extra, delta, base)
    {
      var revision := MaxRevision(tables, StorageScope(scope), scopeId, |tables.order|) + 1;
      newRef := MakeRef(scope, scopeId, revision);
      var inputs := CausalInputs(extra, delta, base);
      var row := Row(|tables.order|, StorageScope(scope), scopeId, revision, base, delta, inputs,
                     Source(scope, scopeId, base, delta, inputs, supersedes), Current, reason);
      tables := tables.(order := tables.order + [newRef], rows := tables.rows[newRef := row],
                        inputRows := tables.inputRows[newRef := {}]);
      recorded := "" !in inputs;
      if recorded {
        tables := tables.(inputRows := tables.inputRows[newRef := inputs]);
        if supersedes.Some? {
          tables := tables.(supersessions := tables.supersessions[supersedes.value := newRef]);
        }
      }
    }

    /** One snapshot write and the eviction after it. */
    method Write(scope: string, scopeId: string, delta: Fields, base: Option<string>,
                 extra: set<string>, supersedes: Option<string>, reason: Option<string>) returns (ref: Option<string>)
      requires Valid() && Clean(delta)
      requires base.Some? ==> base.value in tables.rows && "" !in extra
      requires supersedes.Some? ==> supersedes.value in tables.rows && supersedes.value !in tables.supersessions
      modifies this`tables, this`materialized, this`projections
      ensures Valid()
      ensures tables == Written(old(tables), scope, scopeId, delta, base, extra, supersedes, reason)
      ensures ref == if "" !in CausalInputs(extra, delta, base) then WrittenRef(old(tables), scope, scopeId) else None
    {
      if scope !in SCOPES {
        return None;
      }
      ghost var before := tables;
      AppendKeepsSound(tables, scope, scopeId, delta, base, extra, supersedes, reason);
      var newRef, recorded := WriteRow(scope, scopeId, delta, base, extra, supersedes, reason);
      CachesSurvive(before, tables, artifacts, materialized, projections);
      SupersessionsGrow(before, tables, newRef, supersedes, replacements);
      if !recorded {
        return None;
      }
      Evict({newRef});
      return Some(newRef);
    }

    method Build(scope: string, scopeId: string, content: Fields, inputs: set<string>) returns (ref: Option<string>)
      requires Valid()
      modifies this`tables, this`materialized, this`projections
      ensures Valid()
      ensures tables == Step(old(tables), Event.Build(scope, scopeId, content, inputs))
      ensures ref == if "" !in inputs then WrittenRef(old(tables), scope, scopeId) else None
    {
      AdmittedIsClean(content, scopeId);
      BuildInputsAreNamedExactly(inputs, Admitted(content, scopeId));
      ref := Write(scope, scopeId, OrderedContent(Sanitize(content, Some(scopeId))), None, inputs, None, None);
    }

    method Derive(snapshotRef: string, delta: Fields, toScope: Option<string>, toScopeId: Option<string>)
      returns (ref: Option<string>)
      requires Valid()
      modifies this`tables, this`materialized, this`projections
      ensures Valid()
      ensures tables == Step(old(tables), Event.Derive(snapshotRef, delta, toScope, toScopeId))
      ensures var base := End(old(tables), snapshotRef);
        ref == if base !in old(tables).rows then None
          else WrittenRef(old(tables), OrElse(toScope, RefScope(base)), OrElse(toScopeId, old(tables).rows[base].scopeId))
    {
      var base := ResolveReplacement(snapshotRef);
      if base !in tables.rows {
        return None;
      }
      var scopeId := OrElse(toScopeId, tables.rows[base].scopeId);
      AdmittedIsClean(delta, scopeId);
      var clean := OrderedContent(Sanitize(delta, Some(scopeId)));
      InputsOverBaseAreNamed(tables, {}, clean, base);
      ref := Write(OrElse(toScope, RefScope(base)), scopeId, clean, Some(base), {}, None, None);
    }

    method Promote(snapshotRef: string, scope: string, toScopeId: Option<string>) returns (ref: Option<string>)
      requires Valid()
      modifies this`tables, this`materialized, this`projections
      ensures Valid()
      ensures tables == Step(old(tables), Event.Promote(snapshotRef, scope, toScopeId))
      ensures var base := End(old(tables), snapshotRef);
        ref == if base !in old(tables).rows then None
          else WrittenRef(old(tables), scope, OrElse(toScopeId, old(tables).rows[base].scopeId))
    {
      var record := ResolveReplacement(snapshotRef);
      if record !in tables.rows {
        return None;
      }
      var content := ReconstructEnd(record, snapshotRef);
      InputsOverBaseAreNamed(tables, {}, content, record);
      ref := Write(scope, OrElse(toScopeId, tables.rows[record].scopeId), content, Some(record), {}, None, None);
    }

    method Compact(snapshotRef: string, preserve: set<string>) returns (ref: Option<string>)
      requires Valid()
      modifies this`tables, this`materialized, this`projections
      ensures Valid()
      ensures tables == Step(old(tables), Event.Compact(snapshotRef, preserve))
      ensures var end := End(old(tables), snapshotRef);
        ref == if end !in old(tables).rows then None else Some(NewRef(old(tables), RefScope(end), old(tables).rows[end].scopeId))
      ensures ref.Some? ==> ref.value == End(tables, snapshotRef)
    {
      var record := ResolveReplacement(snapshotRef);
      if record !in tables.rows {
        return None;
      }
      var content := ReconstructEnd(record, snapshotRef);
      KeptIsClean(content, preserve);
      var made := Rewrite(record, snapshotRef, Kept(content, preserve), "context compacted");
      ref := Some(made);
    }

    /** Replace the end of a reference by a root of the given content. */
    method Rewrite(record: string, ghost snapshotRef: string, content: Fields, reason: string) returns (made: string)
      requires Valid() && record in tables.rows && record == End(tables, snapshotRef) && Clean(content)
      modifies this`tables, this`materialized, this`projections
      ensures Valid()
      ensures tables == Rewritten(old(tables), record, content, reason)
      ensures made == NewRef(old(tables), RefScope(record), old(tables).rows[record].scopeId)
      ensures made == End(tables, snapshotRef) && made in tables.rows && tables.rows[made].validity.Current?
      ensures record in tables.supersessions && tables.supersessions[record] == made
    {
      RewriteIsReached(tables, content, reason, snapshotRef);
      RewriteInputsAreNamed(content);
      var ref := Write(RefScope(record), tables.rows[record].scopeId, content, None, InputRefs(Obj(content)),
                       Some(record), Some(reason));
      made := ref.value;
    }

    /** Rebuild a snapshot that is no longer current; a current one is returned as it is. */
    method Reconstruct(snapshotRef: string) returns (ref: Option<string>)
      requires Valid()
      modifies this
      ensures Valid() && artifacts == old(artifacts)
      ensures tables == Step(old(tables), Event.Rebuild(snapshotRef))
      ensures ref.Some? <==> End(old(tables), snapshotRef) in old(tables).rows
      ensures ref.Some? ==>
        ref.value == End(tables, snapshotRef) && ref.value in tables.rows && tables.rows[ref.value].validity.Current?
    {
      var record := ResolveReplacement(snapshotRef);
      if record !in tables.rows {
        return None;
      }
      var content := ReconstructEnd(record, snapshotRef);
      if tables.rows[record].validity.Current? {
        return Some(record);
      }
      var made := Rewrite(record, snapshotRef, content, "invalidated snapshot reconstructed");
      replacements := replacements[record := made];
      var _ := ReconstructContent(made);
      ref := Some(made);
    }

    /** The content of a snapshot already resolved, and the facts a rewrite of it needs. */
    method ReconstructEnd(record: string, ghost snapshotRef: string) returns (content: Fields)
      requires Valid() && record in tables.rows && record == End(tables, snapshotRef)
      modifies this`materialized
      ensures Valid()
      ensures content == Fold(tables, record) && Clean(content) && record !in tables.supersessions
    {
      assert RowOk(tables, record);
      MadeRefIsNormal(RefScope(record), tables.rows[record].scopeId, tables.rows[record].revision);
      ResolveEnds(tables, RefValue(snapshotRef));
      FoldIsClean(tables, record);
      var read := ReconstructContent(record);
      content := read.value;
    }

    method InvalidateRecord(snapshotRef: string, reason: string) returns (found: bool)
      requires Valid()
      modifies this`tables, this`materialized, this`projections
      ensures Valid()
      ensures tables == Step(old(tables), Event.InvalidateRecord(snapshotRef, reason))
      ensures found <==> End(old(tables), snapshotRef) in old(tables).rows
    {
      var record := ResolveReplacement(snapshotRef);
      if record !in tables.rows {
        assert Mark(tables, {record}, Invalid, reason) == tables;
        return false;
      }
      SetValidity({record}, Invalid, reason);
      Evict({record});
      return true;
    }

    /** Mark stale the current snapshots a change reaches, and evict them. */
    method Invalidate(change: Change, identity: string) returns (invalidated: set<string>)
      requires Valid()
      modifies this`tables, this`materialized, this`projections
      ensures Valid()
      ensures tables == Step(old(tables), Event.InvalidateRefs(invalidated, identity))
      ensures exists reached | IsInvalidatedSet(old(tables), change, reached) ::
        invalidated == set r | r in reached && IsCurrent(old(tables), r)
    {
      var reached := FindInvalidated(tables, change);
      invalidated := set r | r in reached && IsCurrent(tables, r);
      SetValidity(invalidated, Stale, identity);
      Evict(invalidated);
    }

    method SetValidity(refs: set<string>, validity: Validity, reason: string)
      requires Valid()
      modifies this`tables
      ensures Valid()
      ensures tables == Mark(old(tables), refs, validity, reason)
    {
      ghost var before := tables;
      MarkKeepsSound(tables, refs, validity, reason);
      tables := tables.(rows := map r | r in tables.rows ::
        if r in refs then tables.rows[r].(validity := validity, reason := Some(reason)) else tables.rows[r]);
      assert tables.rows == Mark(before, refs, validity, reason).rows;
      CachesSurvive(before, tables, artifacts, materialized, projections);
    }

    /** Register an artifact; an existing row is never changed. */
    method RegisterArtifact(sha: string, visibility: Visibility) returns (accepted: bool)
      requires Valid()
      modifies this`artifacts
      ensures Valid() && Registered(old(artifacts), artifacts)
      ensures accepted <==> sha in artifacts && artifacts[sha] == visibility
      ensures sha in old(artifacts) || !accepted ==> artifacts == old(artifacts)
    {
      if sha in artifacts {
        return artifacts[sha] == visibility;
      }
      ghost var before := artifacts;
      artifacts := artifacts[sha := visibility];
      forall k | k in projections ensures ProjectionEntryOk(tables, artifacts, k, projections[k]) {
        assert ProjectionEntryOk(tables, before, k, projections[k]);
        var content := Fold(tables, k.ref);
        var seen {:trigger Project(content, k.view, seen)} :| Registered(seen, before) && projections[k] == Project(content, k.view, seen);
        RegisteredIsTransitive(seen, before, artifacts);
      }
      return true;
    }

    /** The typed view of a snapshot, from the projection cache when it has one. */
    method View(snapshotRef: string, view: ViewName) returns (projected: Option<Fields>)
      requires Valid()
      modifies this`materialized, this`projections
      ensures Valid()
      ensures projected.Some? <==> ContentOf(tables, snapshotRef).Some?
      ensures projected.Some? ==>
        && IsSafeView(projected.value, view, artifacts)
        && IsProjectionOf(projected.value, ContentOf(tables, snapshotRef).value, view, artifacts)
    {
      var record := ResolveReplacement(snapshotRef);
      if record !in tables.rows {
        return None;
      }
      var content := ReconstructEnd(record, snapshotRef);
      var key := ProjectionKey(record, view, tables.rows[record].digest);
      var shown;
      if key in projections {
        shown := projections[key];
        assert ProjectionEntryOk(tables, artifacts, key, shown);
      } else {
        shown := Project(content, view, artifacts);
        assert Registered(artifacts, artifacts);
        projections := projections[key := shown];
      }
      CachedProjectionIsSafe(shown, content, view, artifacts);
      return Some(shown);
    }
  }

  /** The base chain of a snapshot, root first: walk to the root, newest first, then turn it round. */
  lemma ChainGoesDown(t: Tables, ref: string)
    requires Sound(t) && ref in t.rows && t.rows[ref].base.Some?
    ensures var base := t.rows[ref].base.value;
      && base in t.rows && t.rows[base].rowid < t.rows[ref].rowid
      && Chain(t, ref) == Chain(t, base) + [ref]
  {
    assert RowOk(t, ref);
  }

  lemma Reassociate<T>(a: seq<T>, x: T, b: seq<T>)
    ensures (a + [x]) + b == a + ([x] + b)
  {
  }

  method LoadChain(t: Tables, ref: string) returns (chain: seq<string>)
    requires Sound(t) && ref in t.rows
    ensures chain == Chain(t, ref)
  {
    chain := [ref];
    var current := ref;
    while t.rows[current].base.Some?
      invariant current in t.rows
      invariant chain != [] && chain[0] == current
      invariant Chain(t, ref) == Chain(t, current) + chain[1..]
      decreases t.rows[current].rowid
    {
      ChainGoesDown(t, current);
      var base := t.rows[current].base.value;
      Reassociate(Chain(t, base), current, chain[1..]);
      assert [current] + chain[1..] == chain == ([base] + chain)[1..];
      current, chain := base, [base] + chain;
    }
  }

  /** Merge the bodies of a chain from the first to the last. */
  method MergeChain(t: Tables, chain: seq<string>) returns (merged: Fields)
    requires forall r | r in chain :: r in t.rows
    ensures merged == Replay(Bodies(t, chain))
  {
    ghost var bodies := Bodies(t, chain);
    merged := map[];
    for i := 0 to |chain|
      invariant merged == Replay(bodies[..i])
    {
      assert bodies[..i + 1][..i] == bodies[..i];
      merged := DeepMerge(merged, t.rows[chain[i]].body);
    }
    assert bodies[..|chain|] == bodies;
  }

  lemma ResolveDoesNotReturn(t: Tables, ref: string)
    requires Sound(t) && ref in t.supersessions
    ensures Resolve(t, ref) != ref && Resolve(t, ref) !in t.supersessions
  {
    assert EdgeOk(t, ref);
    ResolveEnds(t, t.supersessions[ref]);
  }

  /** After an invalidation no snapshot that is still current records an input in the invalidated
      set or matches the change, and rows outside it are untouched. */
  lemma InvalidationIsComplete(t: Tables, change: Change, reached: set<string>, identity: string)
    requires Sound(t) && IsInvalidatedSet(t, change, reached)
    ensures var marked := set r | r in reached && IsCurrent(t, r);
      var after := Mark(t, marked, Stale, identity);
      && (forall r | IsCurrent(after, r) ::
           r !in reached && after.rows[r].inputs * reached == {} && !DirectlyMatches(after.rows[r], change))
      && (forall r | r in t.rows && !(r in reached && IsCurrent(t, r)) :: after.rows[r] == t.rows[r])
      && (forall r | r in t.rows && r in reached && IsCurrent(t, r) :: after.rows[r].validity == Stale)
  {
    var marked := set r | r in reached && IsCurrent(t, r);
    var after := Mark(t, marked, Stale, identity);
    forall r | IsCurrent(after, r)
      ensures r !in reached && after.rows[r].inputs * reached == {} && !DirectlyMatches(after.rows[r], change)
    {
      assert IsCurrent(t, r) && after.rows[r] == t.rows[r];
    }
  }
}
