# All in Luna: a verified model of the durable coordinator

All in Luna keeps task graphs, dispatch attempts, resource claims, contract revisions, signals and
copy-on-write context snapshots in SQLite and drives them from repeated, out-of-order events. This
project models the parts of that runtime whose correctness is not visible in one function body, and
proves what they promise over every input, every run and every reachable state.

Tables are maps and sequences in class fields; each public method is one atomic step; time and fresh
ids are arguments. Code that updates objects or tables step by step is a class or a method with loops,
proved against a transition function on the table values; the theorems about runs are lemmas about
that function, and every method says that its new state is the function of its old one.

## The parts

**Context kernel.** `Json.dfy` is the JSON value and the deep merge; `Content.dfy` the privacy rules,
the causal references and the typed views; `SnapshotRefs.dfy` reference spelling; `Snapshots.dfy` the
three snapshot tables, resolution through supersessions and the replay of a base chain;
`Invalidation.dfy` the two graph walks; `KernelRuns.dfy` the operations as a transition system and the
laws over runs; `ContextKernel.dfy` the object with its two caches, proved to agree with plain replay;
`Projections.dfy` says when a cached projection is still fresh. `PrivateKeys.dfy` says which keys are
dropped; `Occurrences.dfy` what sanitising, merging, filtering and the search for references leave at
each path of a value; `Readings.dfy` what written snapshots read as, place by place, and how they are
numbered; `Lineage.dfy` which inputs they record and what an invalidation reaches.

**Task and work graphs.** `Graphs.dfy` is the depth-first cycle search and what acyclicity gives;
`States.dfy` the transition tables; `TaskGraph.dfy` validation, growth with rollback and readiness,
`Plans.dfy` what compiling stores; `WorkGraph.dfy` narrowing units and batch expansion, `Expansions.dfy`
what they come to child by child; `WorkGraphRecords.dfy` reading a graph back from
records in any order; `CompiledGraph.dfy` a task graph with the work graphs of its tasks;
`PathPolicy.dfy` path-pattern containment, `PathMatching.dfy` what it and matching come to,
`PathRoots.dfy` from which patterns it is transitive and `PathNarrowing.dfy` what that means for whole work graphs.

**Store.** `StoreRows.dfy` holds the rows; `Leases.dfy`, `ResourceClaims.dfy` and
`ResourceRecovery.dfy` the lease and claim tables, `ClaimRows.dfy` and `RecoveryFacts.dfy` their rows one
by one; `ResourceObservation.dfy` host evidence;
`Dispatch.dfy` the dispatch operations as functions on the tables, `DispatchRuns.dfy` what every run
of them keeps, `StatusWords.dfy` the words of a receipt's status, `DispatchOutcomes.dfy` what every
operation brings about across tables, row by row,
`ReceiptStatuses.dfy` when a receipt's status falls back, `DispatchStore.dfy` the store methods
themselves; `StoreRuns.dfy` claims, releases and dispatch together.

**Contracts and journal.** `ListDelta.dfy` is the keyed list edit; `ContractRevisions.dfy` the
compare-and-insert history; `ContractDeltas.dfy` what runs of deltas keep and what a delta with a used
key is answered; `ContractEdits.dfy` what edits do key by key and field by field; `ContractStore.dfy` the
repository; `Journal.dfy` the signal journal and
its followers.

A transition function is pinned by statements that do not use it: lemmas named `...Exactly`, `...Outcome`
or `...Reads` say in terms of rows, paths and words what it leaves behind.

`Common.dfy` holds shared vocabulary. `dafny verify dfyconfig.toml` checks everything.

## Where the code differs from what one might expect

- Merging is not associative: one null is enough, or an object, something else and an empty object
  (`Json.MergeIsNotAssociative`, `Json.MergeIsNotAssociativeWithoutNulls`). It associates exactly when
  under every key that all three objects have, a null comes last only after two nulls, and an object
  last finds, in an object first, an object between them for which the same holds, or nothing that it
  would not absorb (`Json.MergeAssociatesExactly`). Content is always folded from the root
  (`Snapshots.Fold`).
- A promoted snapshot is its source merged with itself, which drops the nulls that objects hold; it
  reads the same exactly when there are none (`KernelRuns.PromoteLaw`; `KernelRuns.PromotionLosesNull`
  is one that does not).
- A cached projection is not dropped when an artifact is registered later
  (`Projections.StaleProjection`); `Projections.CachedProjectionIsFreshExactly` says exactly when that
  shows.
- A task that `add_task` tries out and takes back, because it depends on a task that is not there or on
  itself, also takes its contract with it when no other task uses that, even one registered before the
  call (`TaskGraphs.RefusalDropsContract`). A refusal changes nothing exactly when the task was not
  tried out, its contract was new, or another task uses that (`TaskGraphs.RefusalIsHarmlessExactly`).
- `ready_tasks` is declared to take a list of completed ids, and under such lists a task with a
  dependency on exports is never ready (`TaskGraphs.ReadyOnlyOnCompletionDependencies`). It hands on a
  mapping of facts as well, and under one every waiting task can be ready
  (`TaskGraphs.FactsMakeAnyWaitingTaskReady`); `TaskGraphs.ExportsAreMetExactly` says what the facts must be.
- A build given an empty input reference fails after its snapshot row is in: the snapshot stays and
  reads as what was given, without recorded inputs (`KernelRuns.BuildLaw`).
- Path containment is not transitive on patterns: `src/?` contains `src/a`, that contains
  `src/a/b`, and `src/?` does not contain that (`PathPolicy.PatternContainmentIsNotTransitive`). It is
  transitive from a pattern exactly when that has no wildcard at all, has one in its first part, or
  ends in `/**` (`PathRoots.TransitiveExactlyFromRooted`, `PathRoots.RootedReads`). Checking each parent
  edge keeps all descendants of a unit inside its patterns in every graph for these patterns, `src/**`
  among them (`PathNarrowing.DescendantsStayInside`), and for no others
  (`PathNarrowing.EdgeChecksSufficeExactlyFromRooted`).
- A pattern with a wildcard in its first part contains every path, whatever else it says: `a*/b`
  contains `zzz/q` (`PathRoots.ContainsEverythingExactly`, `PathRoots.StarInFirstPart`).
- A receipt that brings a first thread id or first resolved evidence also overwrites the receipt's
  status, and so a closed receipt can read pending again (`ReceiptStatuses.ClosedReadsPendingAgain`).
  The status falls back exactly then (`ReceiptStatuses.StatusFallsExactly`), and over a run at most
  once for each of the two and once more for each time the thread id was erased
  (`ReceiptStatuses.FallsAreBounded`). An empty thread id erases the stored one
  (`ReceiptStatuses.EmptyThreadErases`, exactly when: `ReceiptStatuses.ThreadIsErasedExactly`).
- A receipt with an empty dispatch key is looked up by id alone but still occupies the unique index,
  so a second one of another id from the same adapter is dropped silently: nothing is stored, and it is
  answered as if it had been (`DispatchOutcomes.EmptyKeyIsDropped`, exactly when:
  `DispatchOutcomes.UnfoundIsDroppedExactly`).
- A receipt moves a task or unit along paths of the transition table, not along single edges
  (`DispatchRuns.ReceiptMovesTask`, `DispatchRuns.ReceiptSkipsEdges`).
- Recovery inserts claims without looking at limits. A pool is within a limit afterwards exactly when
  what is kept of it and the recovered entities fit (`ResourceRecovery.RecoveryStaysWithinExactlyWhatFits`),
  which they need not (`ResourceRecovery.RecoveryMayOvershoot`).
- `apply_delta` drops the verification specs at the first delta and never changes a contract's task,
  outcome, permissions or context policy (`ContractDeltas.DeltasOnlyEdit`); the contracts table has no
  column for a record's run, dependencies, superseded reference, change reason and extensions
  (`ContractRevisions.ReadBackIsExact`).
- A delta whose key was used for the same contract and version is answered with the first delta's
  revision, which is its own exactly when both build on the same version and their edits come to the
  same (`ContractDeltas.SharedKeyAnswers`). Deltas without a key of their own share one whenever base,
  version and reason agree, so the second one's edits can be lost (`ContractDeltas.SecondDeltaIsLost`).
- A removal in a list delta takes the last item of its key only (`ListDelta.RemovedNameStays`,
  complete exactly when: `ListDelta.RemovalIsCompleteExactlyWhenUnrepeated`).
- Following the journal with a limit of zero reports no more signals even when there are some
  (`Journal.ZeroLimitHidesMore`; at every other limit it is right: `Journal.HasMoreIsExact`).

## Model

| member | source | states |
|---|---|---|
| Json.DeepMerge | plugins/allinluna/runtime/allinluna_runtime/context.py:140-149 | The in-place merge loop leaves exactly the recursive merge of the two objects, at every depth. |
| Json.MergeWithItself | plugins/allinluna/runtime/allinluna_runtime/context.py:505-510 | Merging an object with itself drops exactly the nulls reachable through objects, so it is the identity exactly when there are none. |
| Json.MergeAssociatesExactly | plugins/allinluna/runtime/allinluna_runtime/context.py:140-149 | Three objects may be merged from either end exactly when every key they share does: a null last needs two nulls before it, an object last finds an associating object or, when something else lies between, absorbs the object first. |
| Json.AbsorbedExactly | plugins/allinluna/runtime/allinluna_runtime/context.py:140-149 | Merging a delta over a base leaves the delta exactly when every member of the base is in it, not as a null, and objects absorb objects. |
| Json.MergeIsNotAssociative | plugins/allinluna/runtime/allinluna_runtime/context.py:140-149 | One null is enough: a value, another and a null under one key give different results from either end. |
| Json.MergeIsNotAssociativeWithoutNulls | plugins/allinluna/runtime/allinluna_runtime/context.py:140-149 | So is none: an object, a value that is no object, and an empty object. |
| Content.SanitizedIsClean | plugins/allinluna/runtime/allinluna_runtime/context.py:360-385 | Sanitised content holds no private key and no unrelated-lanes key at any depth. |
| Content.SanitizeKeepsExactlyTheClean | plugins/allinluna/runtime/allinluna_runtime/context.py:360-385 | Without a lane, sanitising changes nothing exactly when there is nothing to drop. |
| Content.SanitizeTwice | plugins/allinluna/runtime/allinluna_runtime/context.py:360-385 | With a lane too, foreign lane summaries included: sanitising changes nothing exactly when there is nothing to drop, and twice is once. |
| Content.MergeKeepsClean | plugins/allinluna/runtime/allinluna_runtime/context.py:140-149 | Merging two contents without dropped keys yields none. |
| Content.OrderedKeepsClean | plugins/allinluna/runtime/allinluna_runtime/context.py:420-428 | Causal ordering drops nothing from sanitised content. |
| PrivateKeys.DroppedExactly | plugins/allinluna/runtime/allinluna_runtime/context.py:106-120 | A key is private exactly when, without the white space around it, in small letters and with underscores for dashes, it is one of sixteen words, ends in `_raw`, has `transcript` in it, or starts like a log or hidden reasoning; and dropped exactly when it is that or names unrelated lanes. |
| PrivateKeys.DroppedMemberExactly | plugins/allinluna/runtime/allinluna_runtime/context.py:361-371 | A member is dropped exactly when its key is, or when it is a lane summary with the id of another lane. |
| PrivateKeys.SpellingDoesNotMatter | plugins/allinluna/runtime/allinluna_runtime/context.py:106-120 | Whether a key is dropped does not depend on capitals, or on dashes for underscores. |
| PrivateKeys.PaddingDoesNotMatter | plugins/allinluna/runtime/allinluna_runtime/context.py:106-120 | Nor on white space around it. |
| Occurrences.SanitizedAtPath | plugins/allinluna/runtime/allinluna_runtime/context.py:360-381 | At every path of a sanitised value there stands what stood there, the same leaf or the same kind of container, exactly when no member on the path is dropped. |
| Occurrences.SanitizingKeepsExactly | plugins/allinluna/runtime/allinluna_runtime/context.py:360-385 | A leaf is kept exactly where no member on its path is dropped; a member of the content exactly when it is not dropped itself. |
| Occurrences.MergedAtKeys | plugins/allinluna/runtime/allinluna_runtime/context.py:140-149 | What is no object stands at a path of a merge exactly when the delta puts it there, a null not over something, or the base has it and the delta overrides nothing on the way. |
| Occurrences.StrippedAtKeys | plugins/allinluna/runtime/allinluna_runtime/context.py:505-510 | Dropping the nulls of objects takes the nulls and nothing else at every path of member names. |
| Content.FilteredShowsOnlyVisible | plugins/allinluna/runtime/allinluna_runtime/context.py:387-412 | Filtering leaves only artifacts the view may show, at any depth, and keeps a value unchanged exactly when all of it may be shown. |
| Projections.VisibleExactly | plugins/allinluna/runtime/allinluna_runtime/context.py:387-393 | An artifact is shown, under any spelling of its name, exactly when it is registered and its visibility reaches the view. |
| Projections.NamesArtifactExactly | plugins/allinluna/runtime/allinluna_runtime/context.py:395-397 | A text names an artifact exactly when it starts with one of the two prefixes. |
| Projections.ViewsRelate | plugins/allinluna/runtime/allinluna_runtime/context.py:35-55 | A work unit sees what its lane sees and four fields more; a lane and a coordinator differ in five fields and three; a conversation has three of its own. |
| Content.ProjectionIsSafe | plugins/allinluna/runtime/allinluna_runtime/context.py:414-418 | A projection has only the view's fields, only visible artifacts and no private key. |
| Occurrences.ProjectionKeepsExactly | plugins/allinluna/runtime/allinluna_runtime/context.py:395-418 | A projection has exactly the members the view is for that are no hidden artifact, and in them every leaf but the hidden artifacts. |
| Content.VisibleStaysVisible | plugins/allinluna/runtime/allinluna_runtime/context.py:387-393 | What a view may show stays showable when more artifacts are registered. |
| Projections.CachedProjectionIsFreshExactly | plugins/allinluna/runtime/allinluna_runtime/context.py:638-653 | A projection cached under an earlier artifact table equals the present one exactly when no artifact named in the view's fields became visible since; it never has a member more. |
| Projections.StaleProjection | plugins/allinluna/runtime/allinluna_runtime/context.py:638-653 | A summary naming an artifact registered after the projection was cached is missing from the cached one. |
| Occurrences.InputRefsExactly | plugins/allinluna/runtime/allinluna_runtime/context.py:123-137 | The causal references of a value are exactly the references that some text of it outside private members is, as they are spelled. |
| Occurrences.ReferencesRead | plugins/allinluna/runtime/allinluna_runtime/context.py:82-137 | References are the texts with one of six prefixes, and a context reference is spelled as a snapshot reference. |
| Occurrences.ContainsExactExactly | plugins/allinluna/runtime/allinluna_runtime/context.py:708-716 | The structured search finds a marker exactly when some text outside the metadata is the marker or one of its revisions. |
| SnapshotRefs.MadeRefNamesItsScope | plugins/allinluna/runtime/allinluna_runtime/context.py:549-562 | The scope read back from a made reference is the scope it was made for. |
| SnapshotRefs.MadeRefsAreDistinct | plugins/allinluna/runtime/allinluna_runtime/context.py:357-358 | Two made references are equal only for the same scope, id and revision. |
| Snapshots.FoldIsReplayOfChain | plugins/allinluna/runtime/allinluna_runtime/context.py:587-604 | What a snapshot reads as is the left fold of the merge over the bodies of its base chain from the root, and the chain only holds older rows. |
| Snapshots.FoldIsClean | plugins/allinluna/runtime/allinluna_runtime/context.py:599-604 | No reconstructed content holds a dropped key. |
| Snapshots.ResolveEnds | plugins/allinluna/runtime/allinluna_runtime/store_services.py:218-230 | Following supersessions ends at a reference nothing supersedes, never at an older row, and is idempotent. |
| Snapshots.NewRefIsFresh | plugins/allinluna/runtime/allinluna_runtime/context.py:353-358 | The next revision of a scope is never a reference already in the table, even across scopes stored alike. |
| Readings.NextRevisionFollows | plugins/allinluna/runtime/allinluna_runtime/context.py:353-358 | In every reachable state the revisions of a storage scope are exactly 1..n, and the next snapshot under any scope stored there is n + 1. |
| Readings.RunKeepsNumbered | plugins/allinluna/runtime/allinluna_runtime/context.py:353-358 | Over every run they stay without gap and without repetition. |
| Snapshots.AppendKeepsSound | plugins/allinluna/runtime/allinluna_runtime/context.py:430-467 | Writing a snapshot keeps every base older, every supersession pointing to a newer row, every body clean and every earlier row as it was. |
| Readings.WrittenRowExactly | plugins/allinluna/runtime/allinluna_runtime/context.py:430-467 | A write adds one row, in place, under the storage scope, current, with its base, body and reason, its inputs and its supersession unless an input is empty, and changes no other row. |
| Snapshots.MarkKeepsSound | plugins/allinluna/runtime/allinluna_runtime/context.py:678-738 | Changing validities keeps the tables sound and touches nothing a row contributes. |
| Readings.MarkedExactly | plugins/allinluna/runtime/allinluna_runtime/context.py:678-738 | A change of validity writes validity and reason into the chosen rows and nothing else. |
| Snapshots.FoldIsStable | plugins/allinluna/runtime/allinluna_runtime/context.py:571-611 | Rows already written read the same after any change that keeps history. |
| Snapshots.ResolveAfterSuperseding | plugins/allinluna/runtime/allinluna_runtime/store_services.py:209-230 | A new supersession redirects exactly the references that ended at the superseded snapshot. |
| Invalidation.ResolveSnapshotRef | plugins/allinluna/runtime/allinluna_runtime/store_services.py:218-230 | The pointer walk terminates, never reports a cycle and returns the resolution. |
| Invalidation.ListSnapshotDependents | plugins/allinluna/runtime/allinluna_runtime/store_services.py:193-207 | The breadth-first walk terminates with the least set closed under recorded inputs from the roots; without transitivity, with the direct dependents. |
| Invalidation.DependentsAreReachable | plugins/allinluna/runtime/allinluna_runtime/store_services.py:193-207 | A snapshot is in that set exactly when a chain of recorded inputs leads to it from a root. |
| Invalidation.FindInvalidated | plugins/allinluna/runtime/allinluna_runtime/context.py:684-731 | The seeding and sweeping loops end with the least set that holds the recorded dependents and the current snapshots that match the change and is closed under inputs of current snapshots. |
| Invalidation.InvalidatedSetIsUnique | plugins/allinluna/runtime/allinluna_runtime/context.py:684-731 | That set is determined by the tables and the change. |
| Lineage.InvalidatedExactly | plugins/allinluna/runtime/allinluna_runtime/context.py:684-731 | A snapshot is in that set exactly when inputs of current snapshots lead to it from a recorded dependent of the marker or a snapshot that names the marker or is of the scope. |
| Lineage.NothingBuiltOnStaysCurrent | plugins/allinluna/runtime/allinluna_runtime/context.py:684-737 | Invalidating a snapshot's own reference leaves no snapshot built on it, over any number of bases, current. |
| Lineage.BuiltOnGoesStale | plugins/allinluna/runtime/allinluna_runtime/context.py:469-737 | The same after any run of operations in between. |
| KernelRuns.StepKeepsSound | plugins/allinluna/runtime/allinluna_runtime/context.py:469-738 | Every kernel operation keeps the tables sound and rewrites nothing an existing row contributes. |
| KernelRuns.BuildLaw | plugins/allinluna/runtime/allinluna_runtime/context.py:430-497 | A built snapshot is stored and reads as its sanitised content; its inputs are recorded exactly when none of the given ones is empty, and otherwise the build fails with the row in place. |
| Readings.BuildKeepsExactly | plugins/allinluna/runtime/allinluna_runtime/context.py:469-497 | A leaf is read from a built snapshot exactly where it stood in the given content, unless a member on the way is dropped. |
| Lineage.BuildRecordsExactly | plugins/allinluna/runtime/allinluna_runtime/context.py:440-456 | A build records a reference exactly when it is one of the given inputs, as spelled, or some text of the stored body outside private members is it. |
| KernelRuns.DeriveLaw | plugins/allinluna/runtime/allinluna_runtime/context.py:499-503 | A derived snapshot reads as its base merged with the sanitised delta. |
| Readings.DeriveReadsExactly | plugins/allinluna/runtime/allinluna_runtime/context.py:499-503 | At every path it reads what the sanitised delta puts there, or what the base reads where the delta overrides nothing on the way. |
| Lineage.DeriveRecordsExactly | plugins/allinluna/runtime/allinluna_runtime/context.py:430-503 | A derivation records exactly its base and the references its stored delta names. |
| Lineage.DerivedIsBuiltOn | plugins/allinluna/runtime/allinluna_runtime/context.py:499-503 | It is built on its base, and on everything that is built on. |
| KernelRuns.PromoteLaw | plugins/allinluna/runtime/allinluna_runtime/context.py:505-511 | A promoted snapshot reads as its source without null members, and as its source exactly when it has none. |
| Readings.PromoteReadsExactly | plugins/allinluna/runtime/allinluna_runtime/context.py:505-511 | At every path it reads what its source reads but the nulls. |
| Lineage.PromoteRecordsExactly | plugins/allinluna/runtime/allinluna_runtime/context.py:430-511 | A promotion records exactly its source and the references its body names. |
| Lineage.PromotedIsBuiltOn | plugins/allinluna/runtime/allinluna_runtime/context.py:505-511 | It is built on its source, and on everything that is built on. |
| KernelRuns.PromotionLosesNull | plugins/allinluna/runtime/allinluna_runtime/context.py:505-511 | A built snapshot with a null summary, and its promotion, which reads as empty. |
| KernelRuns.RewritingChangesOnlyItsReaders | plugins/allinluna/runtime/allinluna_runtime/context.py:616-636 | Replacing a snapshot gives the new content to every reference that resolved to it and changes no other reader, derived children included. |
| KernelRuns.StepKeepsContent | plugins/allinluna/runtime/allinluna_runtime/context.py:661-676 | No operation changes what any existing reference reads as, except a compaction with a preserve list, which keeps exactly the preserved members. |
| Readings.CompactionKeepsExactly | plugins/allinluna/runtime/allinluna_runtime/context.py:661-676 | A compaction keeps a member, unchanged, exactly when nothing or that member is to be preserved, or it is the contract, its reference, the exports, the blockers or the accepted decisions. |
| Readings.CompactionWritesExactly | plugins/allinluna/runtime/allinluna_runtime/context.py:661-676 | It adds one current root under the same scope and id, with its reason, superseding the snapshot, and changes no other row. |
| Readings.RebuildWritesExactly | plugins/allinluna/runtime/allinluna_runtime/context.py:616-636 | So does a rebuild of a snapshot that is not current; a rebuild of one that is changes nothing. |
| Lineage.RewriteRecordsExactly | plugins/allinluna/runtime/allinluna_runtime/context.py:616-676 | Both record exactly the references the content names. |
| KernelRuns.RunKeepsContent | plugins/allinluna/runtime/allinluna_runtime/context.py:616-676 | Over every run without lossy compaction every reference keeps reading the same. |
| KernelRuns.ReachableContentIsCleanReplay | plugins/allinluna/runtime/allinluna_runtime/context.py:571-611 | In every reachable state each readable reference reads as the clean fold of its own finite base chain. |
| ContextKernels.ContextKernel.ResolveReplacement | plugins/allinluna/runtime/allinluna_runtime/context.py:517-547 | Alternating between stored and in-memory replacements ends where the supersession table ends. |
| ContextKernels.ContextKernel.ReconstructContent | plugins/allinluna/runtime/allinluna_runtime/context.py:571-611 | On a cache hit or miss the result is plain replay of the resolved reference, and the caches stay right. |
| ContextKernels.ContextKernel.Evict | plugins/allinluna/runtime/allinluna_runtime/context.py:337-347 | Both caches are emptied when nothing is named; otherwise exactly the entries of the named references go. What is left is still right. |
| ContextKernels.ContextKernel.Write | plugins/allinluna/runtime/allinluna_runtime/context.py:430-467 | The tables become those of the snapshot write, the row staying without inputs or supersession when an input is refused; the caches survive it. |
| ContextKernels.ContextKernel.Build | plugins/allinluna/runtime/allinluna_runtime/context.py:469-497 | The tables become those of the build step, and a reference is returned exactly when the scope is known and no input is empty. |
| ContextKernels.ContextKernel.Derive | plugins/allinluna/runtime/allinluna_runtime/context.py:499-503 | The tables become those of the derive step; the next reference of the scope comes back exactly when the base is there and the scope is known. |
| ContextKernels.ContextKernel.Promote | plugins/allinluna/runtime/allinluna_runtime/context.py:505-511 | The tables become those of the promote step; the next reference of the scope comes back exactly when the source is there and the scope is known. |
| ContextKernels.ContextKernel.Compact | plugins/allinluna/runtime/allinluna_runtime/context.py:661-676 | The tables become those of the compaction step; exactly when the snapshot is there a reference comes back, new, and the old one now stands for it. |
| ContextKernels.ContextKernel.Reconstruct | plugins/allinluna/runtime/allinluna_runtime/context.py:616-636 | The tables become those of the rebuild step; exactly when the snapshot is there it answers what the reference now stands for, which is current. |
| ContextKernels.ContextKernel.Invalidate | plugins/allinluna/runtime/allinluna_runtime/context.py:678-738 | Exactly the current snapshots of the invalidated set become stale. |
| ContextKernels.ContextKernel.InvalidateRecord | plugins/allinluna/runtime/allinluna_runtime/context.py:678-683 | Exactly the resolved snapshot becomes invalid. |
| ContextKernels.ContextKernel.View | plugins/allinluna/runtime/allinluna_runtime/context.py:638-653 | The view is a projection of the resolved content under an artifact table of the past or present, and safe under the present one. |
| ContextKernels.CachesSurvive | plugins/allinluna/runtime/allinluna_runtime/context.py:337-347 | Cached content and projections stay right under any change that keeps history, so evicting only the new reference is enough. |
| ContextKernels.InvalidationIsComplete | plugins/allinluna/runtime/allinluna_runtime/context.py:715-737 | Afterwards no current snapshot matches the change or has an input in the invalidated set, and rows outside it are untouched. |
| Graphs.HasCycle | plugins/allinluna/runtime/allinluna_runtime/domain.py:1684-1700 | The depth-first walk with its two colour sets terminates and answers yes exactly when the relation has a cycle. |
| Graphs.CycleWalk.Visit | plugins/allinluna/runtime/allinluna_runtime/domain.py:1687-1697 | A visit either finishes the node, the finished nodes staying closed and in dependency order, or the relation has a cycle. |
| Graphs.MinimalNode | plugins/allinluna/runtime/allinluna_runtime/domain.py:1684-1700 | In an acyclic relation every non-empty set has a member without a parent in it. |
| States.TerminalTasksAbsorb | plugins/allinluna/runtime/allinluna_runtime/domain.py:1258-1269 | No path of the transition table leaves a terminal task state. |
| States.TaskEdgesExactly | plugins/allinluna/runtime/allinluna_runtime/domain.py:1258-1269 | The single steps of a task are the eighteen of the table. |
| States.UnitEdgesExactly | plugins/allinluna/runtime/allinluna_runtime/domain.py:2070-2079 | The single steps of a work unit are the thirteen of its table. |
| States.TasksReachExactly | plugins/allinluna/runtime/allinluna_runtime/domain.py:1258-1269 | From a task that has not ended every state can be reached but proposed; nothing else. |
| States.UnitsReachExactly | plugins/allinluna/runtime/allinluna_runtime/domain.py:2070-2079 | The same for work units, which end completed or cancelled; a failed one may be taken up again. |
| TaskGraphs.Validate | plugins/allinluna/runtime/allinluna_runtime/domain.py:1654-1700 | On tasks, contracts and dependencies, validation accepts exactly the plans that are owned, reference-closed, free of self edges and acyclic, and reports a cycle exactly when all else is in order. |
| TaskGraphs.TaskGraph.Compile | plugins/allinluna/runtime/allinluna_runtime/domain.py:1342-1376 | Without work graphs, a graph is compiled exactly when ids and contract references are distinct and the compiled plan is well formed. |
| Plans.CompiledExactly | plugins/allinluna/runtime/allinluna_runtime/domain.py:1342-1376 | The compiled plan holds exactly the tasks, in their order and with their dependencies, and the contracts. |
| TaskGraphs.TaskGraph.AddTask | plugins/allinluna/runtime/allinluna_runtime/domain.py:1444-1549 | A task is accepted exactly when it is new, of this run, agrees with the contracts and depends only on tasks that are there; it is appended with its contract and nothing else changes. It is rejected by validation exactly when only the last fails, and then takes its contract with it unless another task uses that; any other refusal changes nothing. |
| Plans.TaskFitsExactly | plugins/allinluna/runtime/allinluna_runtime/domain.py:1444-1537 | A task fits exactly when its id is new, it is of this run, its contract is its own and the one registered if any, and its parents are there. |
| TaskGraphs.RefusalIsHarmlessExactly | plugins/allinluna/runtime/allinluna_runtime/domain.py:1538-1548 | A refusal changes nothing exactly when the task was not tried out, its contract was not there before, or another task uses it. |
| TaskGraphs.RefusalDropsContract | plugins/allinluna/runtime/allinluna_runtime/domain.py:1444-1549 | Adding a task with an absent parent to a graph of one contract and no tasks fails and leaves no contract. |
| TaskGraphs.TaskGraph.AddDependency | plugins/allinluna/runtime/allinluna_runtime/domain.py:1551-1589 | An edge is accepted exactly when both ends exist, it is new, not a self edge and closes no cycle; a rejected edge leaves the graph as it was. |
| Plans.EdgeIsAppended | plugins/allinluna/runtime/allinluna_runtime/domain.py:1573-1580 | An accepted edge is the last dependency of its child, in the table and in the task, and changes no other row. |
| TaskGraphs.TaskGraph.DependenciesSatisfied | plugins/allinluna/runtime/allinluna_runtime/domain.py:1591-1643 | True exactly when every completion parent is reported done or completed, and every parent whose exports are awaited has them reported, or given in place of that, and is done, verifying or completed; told from the plan and the report alone. |
| TaskGraphs.ReadReport | plugins/allinluna/runtime/allinluna_runtime/domain.py:1604-1625 | The loop over a mapping collects exactly the ids whose facts count as completed and the exports of the facts that name any. |
| TaskGraphs.TaskGraph.ReadyTasks | plugins/allinluna/runtime/allinluna_runtime/domain.py:1645-1652 | An id is returned exactly when it is proposed or ready and nothing it waits for is outstanding, told from the plan and the report alone; in graph order. |
| TaskGraphs.ReadyExactly | plugins/allinluna/runtime/allinluna_runtime/domain.py:1591-1652 | The ready set is exactly the set of tasks that may start by their states, their parents and the report. |
| TaskGraphs.NoTaskBeforeItsParents | plugins/allinluna/runtime/allinluna_runtime/domain.py:1591-1652 | Over rounds of completing what is ready, no task that was not completed at the start is finished before every one of its parents. |
| TaskGraphs.ReadinessIsMonotone | plugins/allinluna/runtime/allinluna_runtime/domain.py:1591-1652 | A report that tells more completions and exports makes no task unready. |
| TaskGraphs.SomeUnfinishedTaskIsReady | plugins/allinluna/runtime/allinluna_runtime/domain.py:1645-1652 | No deadlock: while the unfinished tasks all wait to be dispatched, one of them is ready. |
| TaskGraphs.EveryTaskFinishes | plugins/allinluna/runtime/allinluna_runtime/domain.py:1645-1652 | Completing what is ready finishes all n tasks in at most n rounds. |
| TaskGraphs.ReadyOnlyOnCompletionDependencies | plugins/allinluna/runtime/allinluna_runtime/domain.py:1645-1652 | Under lists of completed ids a waiting task can become ready exactly when all its dependencies are on completion. |
| TaskGraphs.ExportsAreMetExactly | plugins/allinluna/runtime/allinluna_runtime/domain.py:1607-1643 | A dependency on exports is met exactly by a fact that names them, from a parent that is far enough or reported so. |
| TaskGraphs.FactsMakeAnyWaitingTaskReady | plugins/allinluna/runtime/allinluna_runtime/domain.py:1607-1652 | Facts about its parents can make any waiting task ready. |
| CompiledGraphs.CompiledGraph.Compile | plugins/allinluna/runtime/allinluna_runtime/domain.py:1342-1442 | With work graphs, a graph is compiled exactly when the tasks compile and every work graph is for a task of the graph, its own, from acceptable records; each then holds exactly its records. |
| CompiledGraphs.CompiledGraph.Validate | plugins/allinluna/runtime/allinluna_runtime/domain.py:1654-1707 | The whole validation accepts exactly well-formed tasks with every work graph under its own task; a stored edge of a work graph never fails it. |
| CompiledGraphs.CompiledGraph.AddTask | plugins/allinluna/runtime/allinluna_runtime/domain.py:1444-1549 | With work graphs too a task is accepted, or refused and taken back, as without. |
| CompiledGraphs.CompiledGraph.AddDependency | plugins/allinluna/runtime/allinluna_runtime/domain.py:1551-1589 | Validating the work graphs again never stands in the way of a new edge. |
| WorkGraphs.WorkGraph.Add | plugins/allinluna/runtime/allinluna_runtime/domain.py:1975-1979 | A unit is stored exactly when its lists hold no blank or repeated entry, its id is new and it narrows an existing parent (or has none); otherwise nothing changes. |
| WorkGraphs.WorkGraph.Commit | plugins/allinluna/runtime/allinluna_runtime/domain.py:1959-1973 | The same for a unit whose lists were checked. |
| WorkGraphs.WorkGraph.AddChild | plugins/allinluna/runtime/allinluna_runtime/domain.py:1981-2004 | One child is added exactly when a batch of it would be, inheriting what it leaves out. |
| WorkGraphs.WorkGraph.Expand | plugins/allinluna/runtime/allinluna_runtime/domain.py:2006-2035 | All or nothing: the batch is stored as a whole exactly when every child passes the checks, else the graph is unchanged. |
| Expansions.ExpandableExactly | plugins/allinluna/runtime/allinluna_runtime/domain.py:2006-2035 | A batch passes exactly when the parent is there, ids are new and distinct, no child names another parent, and with what it inherits each has proper lists, paths inside the parent's and none but the parent's authority. |
| Expansions.ExpandedExactly | plugins/allinluna/runtime/allinluna_runtime/domain.py:1959-2035 | The children then follow the units there were, each as described with what it leaves out taken from the parent, and follow its siblings in the child index; nothing else changes. |
| WorkGraphs.WorkGraph.CommitBatch | plugins/allinluna/runtime/allinluna_runtime/domain.py:2035 | After the preparation no single commit can fail. |
| WorkGraphs.CommitKeepsWellFormed | plugins/allinluna/runtime/allinluna_runtime/domain.py:1949-1973 | A checked commit keeps every unit stored once, after and within its parent, and the child index exact. |
| WorkGraphs.AuthorityShrinks | plugins/allinluna/runtime/allinluna_runtime/domain.py:1949-1957 | Every descendant's authority is a subset of every ancestor's. |
| WorkGraphs.PathsShrink | plugins/allinluna/runtime/allinluna_runtime/domain.py:1949-1957 | Scope and ownership stay inside an ancestor when containment is transitive from its patterns through the patterns of the graph. |
| WorkGraphRecords.Coerce | plugins/allinluna/runtime/allinluna_runtime/domain.py:1416-1442 | Draining the pending records terminates and succeeds exactly when ids are distinct, parents closed and acyclic, and edges narrow; the graph then holds exactly the records, in order if parents came first. |
| WorkGraphRecords.OrderDoesNotMatter | plugins/allinluna/runtime/allinluna_runtime/domain.py:1416-1442 | Whether records are accepted, and for which units, does not depend on their order. |
| WorkGraphRecords.StuckIsUnacceptable | plugins/allinluna/runtime/allinluna_runtime/domain.py:1432-1441 | A pass that places nothing proves a missing or cyclic parent. |
| WorkGraphRecords.RecordsAreAcceptable | plugins/allinluna/runtime/allinluna_runtime/domain.py:2047-2067 | The records a graph writes out are acceptable, with parents first. |
| WorkGraphRecords.RoundTrip | plugins/allinluna/runtime/allinluna_runtime/domain.py:2047-2067 | Writing a graph out and reading it back gives the same units, order and child index. |
| PathPolicy.LiteralContainment | plugins/allinluna/runtime/allinluna_runtime/core/policy.py:38-57 | Without wildcards, containment is being the same path or below it. |
| PathMatching.GlobExactly | plugins/allinluna/runtime/allinluna_runtime/core/policy.py:19-26 | A path matches exactly when it can be cut into one piece for each character of the pattern: any text for a star, slashes too, one character for a question mark. |
| PathMatching.SubtreeMatchesExactly | plugins/allinluna/runtime/allinluna_runtime/core/policy.py:19-26 | A pattern that ends in a double star matches its base and everything below it. |
| PathMatching.ContainsExactly | plugins/allinluna/runtime/allinluna_runtime/core/policy.py:38-57 | A pattern contains itself and, without a wildcard, with one in its first part or with a double star at the end, what lies under its literal prefix; any other contains what it matches. |
| PathMatching.NormalizeReads | plugins/allinluna/runtime/allinluna_runtime/core/policy.py:9-16 | The normal form is what stands between white space, repeated `./` and slashes, with slashes for backslashes; there is none when that is empty, a dot, or climbs. |
| PathRoots.RootedIsTransitive | plugins/allinluna/runtime/allinluna_runtime/core/policy.py:9-57 | From a pattern without wildcards, with one in its first part, or ending in a double star, containment goes on through any patterns. |
| PathRoots.RootedReads | plugins/allinluna/runtime/allinluna_runtime/core/policy.py:26-57 | Rooted patterns are those without wildcards, with one in the first part, and those that end in a double star. |
| PathRoots.ContainsEverythingExactly | plugins/allinluna/runtime/allinluna_runtime/core/policy.py:49-53 | A pattern contains everything exactly when a wildcard stands in its first part. |
| PathRoots.TransitiveExactlyFromRooted | plugins/allinluna/runtime/allinluna_runtime/core/policy.py:9-57 | From every other pattern it does not: there are two patterns through which it breaks. |
| PathNarrowing.DescendantsStayInside | plugins/allinluna/runtime/allinluna_runtime/domain.py:1949-1957 | In every well-formed work graph whatever lies below a unit with such patterns is inside its scope and ownership. |
| PathNarrowing.EdgeChecksSufficeExactlyFromRooted | plugins/allinluna/runtime/allinluna_runtime/domain.py:1949-1957 | A pattern keeps all descendants inside in every graph of checked edges exactly when it is of those forms. |
| PathPolicy.PatternContainmentIsNotTransitive | plugins/allinluna/runtime/allinluna_runtime/core/policy.py:19-57 | With wildcards it is not, on three named patterns. |
| Leases.StepIsSafe | plugins/allinluna/runtime/allinluna_runtime/store_services.py:281-342 | Acquire, expire and release keep the write sets of active leases pairwise disjoint, and a lease that left the active state is never changed again. |
| Leases.RunIsSafe | plugins/allinluna/runtime/allinluna_runtime/store_services.py:281-342 | The same over every sequence of them at arbitrary times. |
| Leases.AcquireSucceedsExactly | plugins/allinluna/runtime/allinluna_runtime/store_services.py:300-315 | A new lease is granted exactly when its id is new and no active unexpired lease holds one of its paths; the row then has its owner, scope and paths, is active, acquired now and expires after its time to live, and what was due has expired. A refusal changes nothing. |
| Leases.GrantExcludesOthers | plugins/allinluna/runtime/allinluna_runtime/store_services.py:281-342 | After a granted acquisition and any calls that neither release the lease nor come at or after its expiry, its row is as granted and everyone who asks for one of its paths before the expiry is refused. |
| Leases.ReleaseIsExact | plugins/allinluna/runtime/allinluna_runtime/store_services.py:337-342 | An active lease is released with its time and the rest of its row kept; any other stays. |
| Leases.LeaseStore.AcquireLease | plugins/allinluna/runtime/allinluna_runtime/store_services.py:281-318 | The method makes the acquire transition, states the granted row field by field, and reports exactly when it did. |
| Leases.LeaseStore.ExpireLeases | plugins/allinluna/runtime/allinluna_runtime/store_services.py:322-329 | Exactly the due active leases expire, and their number is returned. |
| Leases.LeaseStore.ReleaseLease | plugins/allinluna/runtime/allinluna_runtime/store_services.py:337-342 | Only an active lease is released, at the time given, and no other row changes. |
| ResourceClaims.GrantingStaysWithinLimits | plugins/allinluna/runtime/allinluna_runtime/store_resources.py:204-286 | A batch only appends claims and leaves each limited total at most at the larger of what it was and its limit. |
| ResourceClaims.GrantingKeepsOtherPools | plugins/allinluna/runtime/allinluna_runtime/store_resources.py:204-286 | Totals of other runs, scopes and lanes are untouched. |
| ResourceClaims.GrantingKeepsUnique | plugins/allinluna/runtime/allinluna_runtime/store_resources.py:232-239 | No entity gets a second active claim. |
| ResourceClaims.GrantingKeepsInPlace | plugins/allinluna/runtime/allinluna_runtime/store_resources.py:232-262 | A granted batch leaves every claim with an entity of its run and lane. |
| ResourceClaims.GrantingIsMaximal | plugins/allinluna/runtime/allinluna_runtime/store_resources.py:232-284 | A candidate left without a claim would not fit at the end either. |
| ResourceClaims.OccupancyGrowsByGranted | plugins/allinluna/runtime/allinluna_runtime/store_resources.py:204-286 | A batch adds to each pool exactly the slots of its granted candidates of that pool. |
| ResourceClaims.GrantedBecomeClaims | plugins/allinluna/runtime/allinluna_runtime/store_resources.py:204-286 | The rows it adds are the granted candidates, in order. |
| ClaimRows.ServedExactly | plugins/allinluna/runtime/allinluna_runtime/store_resources.py:204-286 | One more candidate gets an active claim with its slots exactly when its entity holds none yet and no pool its scope is limited by is full for it. |
| ClaimRows.ClaimableExactly | plugins/allinluna/runtime/allinluna_runtime/store_resources.py:166-262 | A batch is refused as a whole exactly when its lane has no name, it asks for no slots, its run is absent, or a candidate neither belongs where it claims nor holds a claim. |
| ClaimRows.LeftOutForRoomOnly | plugins/allinluna/runtime/allinluna_runtime/store_resources.py:232-284 | A candidate without a claim at the end is left out because a pool has too little room, told by totals and limits. |
| ClaimRows.PoolsCountExactly | plugins/allinluna/runtime/allinluna_runtime/store_resources.py:204-230 | A claim adds its slots to the totals of its run and kind, and of its lane, exactly when it is active. |
| ResourceClaims.ReleaseIsExact | plugins/allinluna/runtime/allinluna_runtime/store_resources.py:334-354 | A release takes the active claim of its entity and of no other. |
| ResourceClaims.ReleaseFreesExactly | plugins/allinluna/runtime/allinluna_runtime/store_resources.py:334-354 | Occupancy shrinks by exactly the slots released. |
| ClaimRows.ReleasedRowsExactly | plugins/allinluna/runtime/allinluna_runtime/store_resources.py:334-369 | Row by row, a release marks exactly the active claims of its entity, in the lane it names if any, with the reason. |
| ResourceClaims.CapacityHoldsOverRuns | plugins/allinluna/runtime/allinluna_runtime/store_resources.py:204-369 | Over every sequence of claims and releases a pool never exceeds the larger of its start and the largest limit given, and no entity has two active claims. |
| StoreRuns.StoreHoldsOverRuns | plugins/allinluna/runtime/allinluna_runtime/store_dispatch.py:26-656 | Over every run of claim batches, releases, intents, receipts, emissions and status updates in any order: the dispatch tables stay sound and move forward, no entity has two active claims, every claim stays in place, and no pool exceeds the larger of its start and the largest limit given. |
| StoreRuns.DispatchReleasesAtMost | plugins/allinluna/runtime/allinluna_runtime/store_dispatch.py:537-582 | A dispatch operation claims nothing and releases the claim of one entity at most. |
| ResourceClaims.ClaimStore.ClaimResources | plugins/allinluna/runtime/allinluna_runtime/store_resources.py:166-286 | A batch succeeds exactly when its lane is named, its slots are positive, its run is there and each candidate belongs to the run and lane or has an active claim; the loop with its running totals then computes the greedy grant, and otherwise nothing changes. |
| ResourceClaims.ClaimStore.ReleaseResourceClaim | plugins/allinluna/runtime/allinluna_runtime/store_resources.py:334-369 | Exactly the matching active rows are released. |
| ResourceClaims.ClaimStore.ResourceOccupancy | plugins/allinluna/runtime/allinluna_runtime/store_resources.py:315-332 | The totals are those of the pools, lane by lane. |
| ResourceRecovery.RecoveryStore.Recover | plugins/allinluna/runtime/allinluna_runtime/store_resources.py:379-467 | Exactly the supported entities without an active claim get one, in their own scope. |
| ResourceRecovery.RecoveryStore.Reconcile | plugins/allinluna/runtime/allinluna_runtime/store_resources.py:371-522 | Afterwards active claims and supported entities of the run correspond one to one; supported claims are kept, and a table that already corresponds is unchanged. |
| RecoveryFacts.ClaimedExactly | plugins/allinluna/runtime/allinluna_runtime/store_resources.py:371-522 | Afterwards an entity has a claim, and only one, exactly when it is of the run and its state, an unfinished attempt, an unanswered outbox row or a lease shows it at work. |
| RecoveryFacts.EndedExactly | plugins/allinluna/runtime/allinluna_runtime/store_resources.py:467-522 | A claim is ended, with the reason, exactly when it is active, of the run, and nothing shows its entity at work; every other row stays. |
| RecoveryFacts.MadeExactly | plugins/allinluna/runtime/allinluna_runtime/store_resources.py:379-467 | The rows added are one-slot claims for entities of the run at work, and the answer names exactly those that held none. |
| ResourceRecovery.RecoveryStore.ReconcileTwice | plugins/allinluna/runtime/allinluna_runtime/store_resources.py:371-522 | A second call at the same time recovers, reconciles and releases nothing and leaves claims and leases as they are. |
| ResourceRecovery.RecoveryStaysWithinExactlyWhatFits | plugins/allinluna/runtime/allinluna_runtime/store_resources.py:371-522 | After a call each pool holds what was kept of it and one slot per recovered entity, so it is within a limit exactly when these fit. |
| ResourceRecovery.RecoveryMayOvershoot | plugins/allinluna/runtime/allinluna_runtime/store_resources.py:371-522 | Two active tasks without claims fill two slots of their run's pool, whatever limit it has. |
| ResourceObservation.NormalizeIsStable | plugins/allinluna/runtime/allinluna_runtime/resource_observation.py:59-86 | A normalised observation written out and read back is itself. |
| ResourceObservation.ObservedEvidenceIsOk | plugins/allinluna/runtime/allinluna_runtime/resource_observation.py:59-79 | Evidence is resolved only with a complete actual route equal to the resolved one, a source and a timestamp. |
| ResourceObservation.ResolvedExactly | plugins/allinluna/runtime/allinluna_runtime/resource_observation.py:59-79 | It is resolved exactly when the report says so and has a time, a source and two complete routes that read the same; it then reads them without the white space. |
| ResourceObservation.MergedEvidenceIsOk | plugins/allinluna/runtime/allinluna_runtime/store_dispatch.py:479-520 | The column update keeps that, keeps resolved evidence as it is and resolves exactly when either side is. |
| ResourceObservation.MergedExactly | plugins/allinluna/runtime/allinluna_runtime/store_dispatch.py:479-520 | Evidence that is not resolved yet takes every column that comes and keeps the others. |
| DispatchRuns.IngestIsIdempotent | plugins/allinluna/runtime/allinluna_runtime/store_dispatch.py:380-637 | Ingesting a receipt a second time, at any time, changes no table. |
| DispatchRuns.NextNumberIsDense | plugins/allinluna/runtime/allinluna_runtime/store_dispatch.py:64-65 | The next attempt extends the numbers 1..n of its task or unit to 1..n+1. |
| DispatchRuns.StepKeepsSound | plugins/allinluna/runtime/allinluna_runtime/store_dispatch.py:26-656 | Every operation keeps attempts numbered 1..n, one outbox row per attempt under its key, ends recorded exactly for ended attempts, receipt evidence complete and the receipt index exact. |
| DispatchRuns.ReceiptMovesTask | plugins/allinluna/runtime/allinluna_runtime/store_dispatch.py:569-572 | Whatever a receipt does to a task follows a path of the transition table. |
| DispatchRuns.ReceiptSkipsEdges | plugins/allinluna/runtime/allinluna_runtime/store_dispatch.py:569-570 | A receipt takes a proposed task to active, which is no edge of the table. |
| DispatchRuns.ReceiptMovesUnit | plugins/allinluna/runtime/allinluna_runtime/store_dispatch.py:586-612 | Whatever a receipt does to a work unit follows a path of its table. |
| DispatchRuns.StepMovesOn | plugins/allinluna/runtime/allinluna_runtime/store_dispatch.py:26-656 | Every operation moves each row forward: attempt ranks, ended attempts, task and unit paths, outbox order, frozen emission counts, resolved evidence. |
| DispatchRuns.RunIsSafe | plugins/allinluna/runtime/allinluna_runtime/store_dispatch.py:26-656 | All of that over every run of intents, receipts, emissions and status updates. |
| DispatchRuns.TerminalTasksStay | plugins/allinluna/runtime/allinluna_runtime/store_repositories.py:350-369 | A task in a terminal state keeps it over every later run. |
| DispatchRuns.RepeatedIntentChangesNothing | plugins/allinluna/runtime/allinluna_runtime/store_dispatch.py:37-44 | Repeating an accepted dispatch key changes nothing. |
| DispatchOutcomes.ReceiptOutcome | plugins/allinluna/runtime/allinluna_runtime/store_dispatch.py:380-637 | A stored receipt for a task attempt writes, word by word of its status, the attempt (hand-off, closed, failed, lost, active or as it was, with receipt, thread, start and end), the task (active, verifying or as it was), the outbox row, the claims given back and the signals, and nothing else. |
| DispatchOutcomes.UnitReceiptOutcome | plugins/allinluna/runtime/allinluna_runtime/store_dispatch.py:380-637 | The same for an attempt of a work unit: a failure fails the unit, a success only keeps it active, and no claim is given back. |
| DispatchOutcomes.KnownReceiptIsStoredExactly | plugins/allinluna/runtime/allinluna_runtime/store_dispatch.py:414-520 | A receipt for a row that is there is stored exactly when its status is progress or it brings first evidence or a first thread; the row takes its status, time and thread id, and keeps key and adapter. |
| DispatchOutcomes.NewReceiptIsStoredExactly | plugins/allinluna/runtime/allinluna_runtime/store_dispatch.py:375-413 | One for which no row is found is stored as it came, and indexed by adapter and key. |
| DispatchOutcomes.ReceiptIsAnsweredExactly | plugins/allinluna/runtime/allinluna_runtime/store_dispatch.py:521-637 | The answer names the stored row, its key and status, and the attempt of that key, a task's before a work unit's. |
| DispatchOutcomes.UnattachedReceiptOutcome | plugins/allinluna/runtime/allinluna_runtime/store_dispatch.py:526-637 | A receipt whose key has no attempt changes the receipt tables alone. |
| DispatchOutcomes.ReceiptIsFoundExactly | plugins/allinluna/runtime/allinluna_runtime/store_dispatch.py:375-413 | A receipt finds the row of its id, or else the one of its adapter and key if the key is not empty, and only when there is one. |
| StatusWords.ProgressExactly | plugins/allinluna/runtime/allinluna_runtime/store_dispatch.py:428-450 | A status is progress exactly when it follows a pending one and is none, or ends an active one, in capital or small letters. |
| DispatchOutcomes.UnfoundIsDroppedExactly | plugins/allinluna/runtime/allinluna_runtime/store_dispatch.py:375-475 | A receipt for which no row is found is answered as its own, and is stored under its id exactly unless its key is empty and its adapter has one under that key already. |
| DispatchOutcomes.EmptyKeyIsDropped | plugins/allinluna/runtime/allinluna_runtime/store_dispatch.py:375-475 | A second receipt of an adapter with an empty key is answered and lost. |
| DispatchOutcomes.RepeatedReceiptIsAnsweredAlike | plugins/allinluna/runtime/allinluna_runtime/store_dispatch.py:375-637 | Repeating a receipt repeats the answer. |
| ReceiptStatuses.StatusFallsExactly | plugins/allinluna/runtime/allinluna_runtime/store_dispatch.py:414-520 | A stored receipt's status falls to an earlier class exactly when a receipt of that class brings its first thread id or first resolved evidence. |
| ReceiptStatuses.ClosedReadsPendingAgain | plugins/allinluna/runtime/allinluna_runtime/store_dispatch.py:414-520 | A closed receipt reads pending again after a pending one that names a thread. |
| ReceiptStatuses.ThreadIsErasedExactly | plugins/allinluna/runtime/allinluna_runtime/store_dispatch.py:414-520 | A stored thread id is lost exactly to a stored receipt with an empty one. |
| ReceiptStatuses.FallsAreBounded | plugins/allinluna/runtime/allinluna_runtime/store_dispatch.py:380-656 | Over every run a status falls at most once for each of the thread and the evidence still missing and once for each erasure of the thread. |
| ReceiptStatuses.KnownReceiptsOnlyRise | plugins/allinluna/runtime/allinluna_runtime/store_dispatch.py:380-656 | Without empty thread ids it falls twice at most, and never when both are known. |
| ReceiptStatuses.EmptyThreadErases | plugins/allinluna/runtime/allinluna_runtime/store_dispatch.py:495-520 | A pending receipt that ends with an empty thread id forgets its thread. |
| DispatchOutcomes.TaskUpdateOutcome | plugins/allinluna/runtime/allinluna_runtime/store_repositories.py:350-369 | A status update writes the state and appends the named signal; blocking or ending a task gives its own claims back under that name, row by row, and nobody else's; any other move keeps all claims. |
| DispatchOutcomes.UnitUpdateOutcome | plugins/allinluna/runtime/allinluna_runtime/store_repositories.py:454-478 | The same for the lane slots of a work unit. |
| DispatchOutcomes.RefusedUpdateOutcome | plugins/allinluna/runtime/allinluna_runtime/store_repositories.py:350-478 | An update its table of transitions does not have changes nothing. |
| DispatchOutcomes.IntentOutcome | plugins/allinluna/runtime/allinluna_runtime/store_dispatch.py:26-111 | A task intent is carried out exactly for a dispatchable task under a new key and id: the next attempt, dispatched and not started, a waiting outbox row never emitted, the task dispatching, and its signals, ready first if it was only proposed. |
| DispatchOutcomes.BeginOutcome | plugins/allinluna/runtime/allinluna_runtime/scheduler/local_scheduler.py:265-279 | A unit attempt is begun exactly for a known unit under a new key and id, as the unit's next one. |
| DispatchOutcomes.UnitIntentOutcome | plugins/allinluna/runtime/allinluna_runtime/store_dispatch.py:116-184 | A unit intent adds a waiting outbox row and a signal exactly for a unit with an attempt of its own under the key or id, once per key. |
| DispatchOutcomes.EmitOutcome | plugins/allinluna/runtime/allinluna_runtime/store_dispatch.py:641-652 | Emitting marks and counts a row exactly when it waits or was emitted before. |
| DispatchStore.StoreDispatch.PersistDispatchIntent | plugins/allinluna/runtime/allinluna_runtime/store_dispatch.py:26-111 | The tables become those of the intent; the answer is the attempt of the key, or the first refusal, which changes nothing. |
| DispatchStore.StoreDispatch.BeginUnitAttempt | plugins/allinluna/runtime/allinluna_runtime/scheduler/local_scheduler.py:265-279 | The next attempt of a known work unit is inserted under a new key, or nothing changes. |
| DispatchStore.StoreDispatch.PersistWorkUnitDispatchIntent | plugins/allinluna/runtime/allinluna_runtime/store_dispatch.py:116-184 | The same for a work unit, whose attempt must exist. |
| DispatchStore.StoreDispatch.IngestReceipt | plugins/allinluna/runtime/allinluna_runtime/store_dispatch.py:356-637 | Finding, writing and following up a receipt make exactly the ingestion transition, and the answer is its answer. |
| DispatchStore.StoreDispatch.MoveAttempt | plugins/allinluna/runtime/allinluna_runtime/store_dispatch.py:537-582 | Attempt, claims, task, signals and outbox move together as the transition says, and have exactly the effect the status asks for. |
| DispatchStore.StoreDispatch.MoveUnitAttempt | plugins/allinluna/runtime/allinluna_runtime/store_dispatch.py:583-625 | The same for a work unit's attempt. |
| DispatchStore.StoreDispatch.MarkOutboxEmitted | plugins/allinluna/runtime/allinluna_runtime/store_dispatch.py:641-652 | Only pending and emitted rows are emitted and counted. |
| DispatchStore.StoreDispatch.UpdateTaskStatus | plugins/allinluna/runtime/allinluna_runtime/store_repositories.py:350-369 | A validated transition with its claim release and signal, or no change. |
| DispatchStore.StoreDispatch.UpdateWorkUnitStatus | plugins/allinluna/runtime/allinluna_runtime/store_repositories.py:454-478 | The same for a work unit. |
| ListDelta.ApplyListDelta | plugins/allinluna/runtime/allinluna_runtime/contracts.py:1070-1099 | The tombstone and index loops compute the specified edit or its first error, on every list. |
| ListDelta.AppliesExactly | plugins/allinluna/runtime/allinluna_runtime/contracts.py:1070-1099 | On distinct keys a delta applies exactly when removals name present keys once each and additions keys absent by then once each. |
| ListDelta.AppliedIsMapUpdate | plugins/allinluna/runtime/allinluna_runtime/contracts.py:1070-1099 | Read as a map the result is remove, then overwrite, then insert. |
| ListDelta.AppliedKeepsOrder | plugins/allinluna/runtime/allinluna_runtime/contracts.py:1070-1099 | Survivors keep their order, new keys of changes follow, additions come last, and no key is repeated. |
| ListDelta.RemovalIsCompleteExactlyWhenUnrepeated | plugins/allinluna/runtime/allinluna_runtime/contracts.py:1073-1079 | On any list a removed key is gone exactly when no other item had it. |
| ListDelta.RemovedNameStays | plugins/allinluna/runtime/allinluna_runtime/contracts.py:1073-1079 | Of two items of one name, removing the name leaves the first. |
| ListDelta.NamingTellsNull | plugins/allinluna/runtime/allinluna_runtime/contracts.py:1062-1067 | No item but null has the key of null, whatever the text of values. |
| ContractEdits.NamedExactly | plugins/allinluna/runtime/allinluna_runtime/contracts.py:1062-1067 | An object is known by the first of name, id, ref, task_ref and path that it has, as text; anything else as a whole. |
| ContractRevisions.MapDeltaTouchesOnlyWhatItNames | plugins/allinluna/runtime/allinluna_runtime/contracts.py:1102-1127 | A key is there afterwards exactly when it was written, or was there and not removed; untouched keys keep their values. |
| ContractEdits.OwnershipExactly | plugins/allinluna/runtime/allinluna_runtime/contracts.py:1102-1127 | A key has a value afterwards exactly when the last change or addition that writes the key writes that value, or none writes or takes it and it had it. |
| ContractEdits.OwnershipAppliesExactly | plugins/allinluna/runtime/allinluna_runtime/contracts.py:1102-1127 | The edit applies exactly when it takes only keys that are there, none twice, and writes only objects, none an addition of a key that is there by then. |
| ContractRevisions.ReadBackIsExact | plugins/allinluna/runtime/allinluna_runtime/contracts.py:727-786 | A record read back is the record put exactly when it had nothing the table has no column for. |
| ContractRevisions.PutExactlyTheNextVersion | plugins/allinluna/runtime/allinluna_runtime/contracts.py:1242-1264 | A valid record is accepted exactly when its version is the next one. |
| ContractRevisions.StepKeepsSound | plugins/allinluna/runtime/allinluna_runtime/contracts.py:1242-1449 | Every put, delta and restart keeps the versions of each contract exactly 1..n and every remembered delta backed by its row. |
| ContractRevisions.HistoryIsLinear | plugins/allinluna/runtime/allinluna_runtime/contracts.py:1242-1449 | The same over every run, in which no row is ever changed or lost. |
| ContractRevisions.OneSuccessor | plugins/allinluna/runtime/allinluna_runtime/contracts.py:1410-1428 | A base version that has a successor gets no other. |
| ContractRevisions.DeltaAddsExactly | plugins/allinluna/runtime/allinluna_runtime/contracts.py:1382-1449 | A delta adds a row exactly when it is new, asked for its own base, builds on the current version, proposes the next and its edits apply. |
| ContractEdits.RevisedExactly | plugins/allinluna/runtime/allinluna_runtime/contracts.py:1423-1446 | A delta makes a revision exactly when its four edits apply and the result is valid; the revision has the edits, version, reason and time, names what it supersedes, has no verification specs, and is otherwise the current one. |
| ContractEdits.ValidExactly | plugins/allinluna/runtime/allinluna_runtime/contracts.py:594-690 | A revision is valid exactly when it is numbered, has an outcome, repeats no list item, and its conditions and its reason, if any, say something. |
| ContractRevisions.ReplayAddsNothing | plugins/allinluna/runtime/allinluna_runtime/contracts.py:1410-1449 | Replaying an applied delta any time later adds nothing: the first answer again, or an error once the process forgot. |
| ContractDeltas.DeltasOnlyEdit | plugins/allinluna/runtime/allinluna_runtime/contracts.py:1382-1449 | Over every run that puts no revision of a contract from outside, its task, outcome, permissions and context policy never change again, and no version added has verification specs. |
| ContractDeltas.SharedKeyAnswers | plugins/allinluna/runtime/allinluna_runtime/contracts.py:1410-1449 | A delta under a new key is answered with its own edits; any later one with that key is answered exactly for the same contract and version, with the first one's revision, and that is its own exactly when base version and edits agree. |
| ContractDeltas.SecondDeltaIsLost | plugins/allinluna/runtime/allinluna_runtime/contracts.py:430-437 | Two deltas without keys of their own that add different exports for one reason: the second is answered with the first one's revision and never applied. |
| ContractRevisions.DeltasKeepKeys | plugins/allinluna/runtime/allinluna_runtime/contracts.py:1429-1446 | When no put names an item twice, no revision of any run does. |
| ContractStore.ApplyMapDelta | plugins/allinluna/runtime/allinluna_runtime/contracts.py:1102-1127 | The two loops compute the specified ownership edit or its first error. |
| ContractStore.ContractRepository.Insert | plugins/allinluna/runtime/allinluna_runtime/contracts.py:1242-1264 | The table gains the record or, with the first refusal, is unchanged. |
| ContractStore.ContractRepository.Apply | plugins/allinluna/runtime/allinluna_runtime/contracts.py:1382-1449 | Table and memory become those of the delta step, and the answer is its answer. |
| ContractStore.ContractRepository.Get | plugins/allinluna/runtime/allinluna_runtime/contracts.py:1313-1332 | The asked version or the latest, found exactly when it lies in 1..n. |
| ContractStore.ContractRepository.History | plugins/allinluna/runtime/allinluna_runtime/contracts.py:1359-1367 | All n revisions, version 1 first. |
| Journal.AfterIsComplete | plugins/allinluna/runtime/allinluna_runtime/journal.py:994-1013 | A read without limit returns exactly the run's signals after the cursor. |
| Journal.CursorSplits | plugins/allinluna/runtime/allinluna_runtime/journal.py:994-1013 | A later cursor cuts what an earlier one sees in two, in order. |
| Journal.BatchIsWindow | plugins/allinluna/runtime/allinluna_runtime/journal.py:576-632 | A batch is exactly the run's signals between its two cursors. |
| Journal.BatchIsFull | plugins/allinluna/runtime/allinluna_runtime/journal.py:594-620 | It has the first of the signals left, as many as there are up to the limit. |
| Journal.HasMoreIsExact | plugins/allinluna/runtime/allinluna_runtime/journal.py:594-620 | More is reported exactly when there is more, unless the limit is zero, when it never is. |
| Journal.ZeroLimitHidesMore | plugins/allinluna/runtime/allinluna_runtime/journal.py:594-620 | With a limit of zero one signal is there and no more is reported. |
| Journal.EachSignalExactlyOnce | plugins/allinluna/runtime/allinluna_runtime/journal.py:576-656 | Over every interleaving of appends to any runs and polls with any limits, what was delivered and what is pending make up exactly the run's signals, in order, each once. |
| Journal.FollowersMissNothing | plugins/allinluna/runtime/allinluna_runtime/journal.py:576-656 | The same for a follower that starts anywhere with an empty hand. |
| Journal.PollsCatchUp | plugins/allinluna/runtime/allinluna_runtime/journal.py:634-656 | As many polls with positive limits as signals are left deliver them all. |
| Journal.SignalJournal.AppendSignal | plugins/allinluna/runtime/allinluna_runtime/journal.py:979-992 | A new signal is numbered above all others and nothing else changes for any follower. |
| Journal.SignalJournal.Read | plugins/allinluna/runtime/allinluna_runtime/journal.py:544-569 | The comprehension and the slice return the first signals after the cursor up to the limit. |
| Journal.SignalJournal.FollowOnce | plugins/allinluna/runtime/allinluna_runtime/journal.py:594-620 | One poll with its look-ahead read is the specified batch. |
| Journal.SignalJournal.Cursor | plugins/allinluna/runtime/allinluna_runtime/journal.py:660-675 | The last number of the run, after which nothing of it remains. |

## Left out

- ContextKernels.ContextKernel.Write: does not model its explicit revision argument, which no caller uses, or the links of artifacts to the snapshot.
- ContextKernels.ContextKernel.View: promises a projection under an earlier artifact table, not a fresh one, because the code keeps cached projections when artifacts are registered.
- Content.SanitizeTwice: a lane summary whose lane id is a list or an object makes the code raise; here it counts as foreign and is dropped.
- WorkGraphs.WorkGraph.Expand: takes scope, authority and ownership as lists of strings; checks, dependencies, states and resource envelopes of units are carried along as one opaque value.
- TaskGraphs.TaskGraph.AddTask: does not model the ownership map beside the contracts or the defaults the builder form fills in; a parent reference stands for its task id.
- TaskGraphs.ReadReport: a fact's exports are a set of names; an argument that is not a list of distinct texts, which the code refuses, is not modelled.
- CompiledGraphs.CompiledGraph.Compile: takes work graphs as records; one handed over as an object is kept by the code as it is.
- PathPolicy.LiteralContainment: leaves character classes of wildcard patterns out; containment by patterns is otherwise as in the code.
- PathNarrowing.DescendantsStayInside: normalises each pattern once, where the helpers of the code do it again; that tells only after a leading slash before `./` or white space.
- PathNarrowing.EdgeChecksSufficeExactlyFromRooted: is about patterns in normal form whose parts are not empty or padded.
- ResourceRecovery.RecoveryStore.Reconcile: does not model the missing-run error or the requested and resolved resource columns of a recovered claim.
- Leases.LeaseStore.AcquireLease: compares exact path sets, as the store does; normalising the paths and validating the owner are not modelled.
- Journal.SignalJournal.FollowOnce: is one poll without waiting; blocking, timeouts and stop events are not modelled.
- ContractStore.ContractRepository.Apply: takes parsed references; identifier patterns, timestamps and the parsing of verification specs are not modelled.
- StoreRuns.StoreHoldsOverRuns: covers the operations of the store. The coordinator, the action bridge and the schedulers also write tasks, attempts and outbox rows directly (engine/coordinator.py, engine/action_bridge.py, scheduler/local_scheduler.py); of these only the beginning of a unit attempt is modelled. Recovery is apart from it, since it looks at no limit.
- ResourceClaims.GrantingKeepsUnique: is by the text of the entity id; the store also accepts a task's local id, under which the same task could hold a second claim.
- SQLite, locking, migrations and transactions: each public method is one atomic step that completes or leaves the state unchanged.
- JSON text, digests, random ids and clocks: objects are finite maps without member order, a digest is the value digested, ids and times are arguments, numbers are reals.
- The text of values that are not strings is a parameter of the list delta, so its theorems hold for every way of writing them.
- Unicode: lower-casing is modelled on ASCII letters; stripping takes all of the language's white space.
- Store lookups by local id, lane-direct results and hand-offs, driver checkpoints, permissions and task exports are easy members.
- Receipts: tool, host and payload columns are not modelled; each receipt has its id.
- Artifact payloads and links, snapshot bundles, traces and metrics; only the insert-only visibility table of artifacts matters here.
- Status projections, aliases, record plumbing, evidence gating, verification planning, resource policy precedence, the command line and the JavaScript plugin.
