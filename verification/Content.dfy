/** What the Context Kernel lets into a snapshot: key privacy, sanitising, causal
    references, and the typed views over a snapshot's content. */
module Content {
  import opened Common
  import opened Json

  /* ---------------------------------------------------------------- keys */

  const INTERNAL_META_KEY := "__context_meta__"

  const RAW_KEYS: set<string> := {
    "raw_logs", "raw_tool_log", "raw_tool_logs", "tool_logs", "stdout", "stderr",
    "transcript", "raw_transcript", "tool_output", "tool_outputs", "chain_of_thought",
    "hidden_reasoning", "internal_reasoning", "reasoning_trace", "scratchpad"
  }

  function NormalizedChar(c: char): char {
    if c == '-' then '_' else if 'A' <= c <= 'Z' then (c as int + 32) as char else c
  }

  function NormalizedKey(key: string): string {
    var s := Strip(key);
    seq(|s|, i requires 0 <= i < |s| => NormalizedChar(s[i]))
  }

  predicate Includes(s: string, part: string) {
    part <= s || (s != [] && Includes(s[1..], part))
  }

  predicate IsPrivateKey(key: string) {
    var k := NormalizedKey(key);
    || k == INTERNAL_META_KEY
    || k in RAW_KEYS
    || EndsWith(k, "_raw")
    || Includes(k, "transcript")
    || "raw_log" <= k
    || "tool_log" <= k
    || "hidden_reasoning" <= k
  }

  /** The keys sanitising removes whatever their value is. */
  predicate IsDroppedKey(key: string) {
    IsPrivateKey(key) || NormalizedKey(key) == "unrelated_lanes"
  }

  lemma {:induction false} IncludedIsNoLonger(s: string, part: string)
    requires Includes(s, part)
    ensures |part| <= |s|
  {
    if !(part <= s) { IncludedIsNoLonger(s[1..], part); }
  }

  /** A summary is an ordinary member. */
  lemma SummaryIsKept()
    ensures !IsDroppedKey("summary")
  {
    var k := "summary";
    assert Strip(k) == k;
    assert NormalizedKey(k) == k;
    assert |k| == 7 && k[0] == 's' && k[1] == 'u' && k[6] == 'y';
    if Includes(k, "transcript") { IncludedIsNoLonger(k, "transcript"); }
  }

  /* ---------------------------------------------------------- sanitising */

  /** A lane summary that names another lane. */
  predicate IsForeignSummary(key: string, item: Json, lane: Option<string>) {
    && key == "lane_summary"
    && lane.Some?
    && item.Obj?
    && "lane_id" in item.fields
    && item.fields["lane_id"] != Null
    && item.fields["lane_id"] != Text(lane.value)
  }

  predicate IsDroppedMember(key: string, item: Json, lane: Option<string>) {
    IsDroppedKey(key) || IsForeignSummary(key, item, lane)
  }

  function SanitizeValue(v: Json, lane: Option<string>): Json {
    match v
    case Obj(fields) =>
      Obj(map k | k in fields && !IsDroppedMember(k, fields[k], lane) :: SanitizeValue(fields[k], lane))
    case Arr(items) =>
      Arr(seq(|items|, i requires 0 <= i < |items| => SanitizeValue(items[i], lane)))
    case _ => v
  }

  function Sanitize(content: Fields, lane: Option<string>): Fields {
    SanitizeValue(Obj(content), lane).fields
  }

  /** No dropped key at any depth. */
  ghost predicate CleanValue(v: Json) {
    match v
    case Obj(fields) => forall k | k in fields :: !IsDroppedKey(k) && CleanValue(fields[k])
    case Arr(items) => forall i | 0 <= i < |items| :: CleanValue(items[i])
    case _ => true
  }

  ghost predicate Clean(content: Fields) {
    CleanValue(Obj(content))
  }

  lemma {:induction false} SanitizedIsClean(v: Json, lane: Option<string>)
    ensures CleanValue(SanitizeValue(v, lane))
  {
    match v
    case Obj(fields) =>
      forall k | k in fields ensures CleanValue(SanitizeValue(fields[k], lane)) {
        SanitizedIsClean(fields[k], lane);
      }
    case Arr(items) =>
      forall i | 0 <= i < |items| ensures CleanValue(SanitizeValue(items[i], lane)) {
        SanitizedIsClean(items[i], lane);
      }
    case _ =>
  }

  /** Without a lane, sanitising keeps a value exactly when the value is clean. */
  lemma {:induction false} SanitizeKeepsExactlyTheClean(v: Json)
    ensures SanitizeValue(v, None) == v <==> CleanValue(v)
  {
    match v
    case Obj(fields) =>
      forall k | k in fields ensures SanitizeValue(fields[k], None) == fields[k] <==> CleanValue(fields[k]) {
        SanitizeKeepsExactlyTheClean(fields[k]);
      }
      var kept := SanitizeValue(v, None).fields;
      if CleanValue(v) {
        assert kept == fields;
      } else {
        var k :| k in fields && (IsDroppedKey(k) || !CleanValue(fields[k]));
        assert k !in kept || kept[k] != fields[k];
      }
    case Arr(items) =>
      forall i | 0 <= i < |items| ensures SanitizeValue(items[i], None) == items[i] <==> CleanValue(items[i]) {
        SanitizeKeepsExactlyTheClean(items[i]);
      }
      var kept := SanitizeValue(v, None).items;
      if CleanValue(v) {
        assert kept == items;
      } else {
        var i :| 0 <= i < |items| && !CleanValue(items[i]);
        assert kept[i] != items[i];
      }
    case _ =>
  }

  /* ------------------------------------------------- merging clean content */

  /** Nothing at any depth that content of the lane may not hold. */
  ghost predicate CleanFor(v: Json, lane: Option<string>) {
    match v
    case Obj(fields) => forall k | k in fields :: !IsDroppedMember(k, fields[k], lane) && CleanFor(fields[k], lane)
    case Arr(items) => forall i | 0 <= i < |items| :: CleanFor(items[i], lane)
    case _ => true
  }

  /** A member that is kept is still no foreign summary once its own content is sanitised. */
  lemma KeptMemberStaysKept(key: string, item: Json, lane: Option<string>)
    requires !IsDroppedMember(key, item, lane)
    ensures !IsDroppedMember(key, SanitizeValue(item, lane), lane)
  {
  }

  lemma {:induction false} SanitizedIsCleanFor(v: Json, lane: Option<string>)
    ensures CleanFor(SanitizeValue(v, lane), lane)
  {
    match v
    case Obj(fields) =>
      forall k | k in fields && !IsDroppedMember(k, fields[k], lane)
        ensures !IsDroppedMember(k, SanitizeValue(fields[k], lane), lane) && CleanFor(SanitizeValue(fields[k], lane), lane)
      {
        KeptMemberStaysKept(k, fields[k], lane);
        SanitizedIsCleanFor(fields[k], lane);
      }
    case Arr(items) =>
      forall i | 0 <= i < |items| ensures CleanFor(SanitizeValue(items[i], lane), lane) {
        SanitizedIsCleanFor(items[i], lane);
      }
    case _ =>
  }

  lemma {:induction false} CleanForIsKept(v: Json, lane: Option<string>)
    requires CleanFor(v, lane)
    ensures SanitizeValue(v, lane) == v
  {
    match v
    case Obj(fields) =>
      forall k | k in fields ensures SanitizeValue(fields[k], lane) == fields[k] { CleanForIsKept(fields[k], lane); }
      assert SanitizeValue(v, lane).fields == fields;
    case Arr(items) =>
      forall i | 0 <= i < |items| ensures SanitizeValue(items[i], lane) == items[i] { CleanForIsKept(items[i], lane); }
    case _ =>
  }

  /** Sanitising for a lane is idempotent, and keeps a value exactly when there is nothing to drop. */
  lemma SanitizeTwice(v: Json, lane: Option<string>)
    ensures SanitizeValue(SanitizeValue(v, lane), lane) == SanitizeValue(v, lane)
    ensures SanitizeValue(v, lane) == v <==> CleanFor(v, lane)
  {
    SanitizedIsCleanFor(v, lane);
    CleanForIsKept(SanitizeValue(v, lane), lane);
    if CleanFor(v, lane) { CleanForIsKept(v, lane); }
  }

  lemma {:induction false} MergedAtIsClean(base: Fields, delta: Fields, k: string)
    requires Clean(base) && Clean(delta)
    requires (k in base || k in delta) && MergedAt(base, delta, k).Some?
    ensures !IsDroppedKey(k) && CleanValue(MergedAt(base, delta, k).value)
    decreases Obj(delta), 0
  {
    assert k in base ==> !IsDroppedKey(k) && CleanValue(base[k]);
    assert k in delta ==> !IsDroppedKey(k) && CleanValue(delta[k]);
    if k in delta && delta[k].Obj? && k in base && base[k].Obj? {
      assert Obj(base[k].fields) == base[k] && Obj(delta[k].fields) == delta[k];
      MergeKeepsClean(base[k].fields, delta[k].fields);
    }
  }

  /** A merge of clean content is clean: merging cannot bring a dropped key back. */
  lemma {:induction false} MergeKeepsClean(base: Fields, delta: Fields)
    requires Clean(base) && Clean(delta)
    ensures Clean(Merge(base, delta))
    decreases Obj(delta), 1
  {
    var merged := Merge(base, delta);
    forall k | k in merged ensures !IsDroppedKey(k) && CleanValue(merged[k]) {
      MergedAtIsClean(base, delta, k);
    }
  }

  /* ------------------------------------------------------------ ordering */

  const CAUSAL_PRIORITY: set<string> := {
    "contract_ref", "accepted_decisions", "imports", "exports", "known_facts",
    "active_work", "blockers", "failed_assumptions", "file_index", "open_questions"
  }

  /** The members causal ordering keeps; the order itself is not part of a map. */
  function OrderedContent(content: Fields): Fields {
    map k | k in content && (k in CAUSAL_PRIORITY || k !in RAW_KEYS) :: content[k]
  }

  /** Lower-case letters and underscores only. */
  predicate IsPlainKey(key: string) {
    forall i | 0 <= i < |key| :: key[i] == '_' || 'a' <= key[i] <= 'z'
  }

  lemma PlainKeyIsNormal(key: string)
    requires IsPlainKey(key)
    ensures NormalizedKey(key) == key
  {
    assert Strip(key) == key;
  }

  lemma RawLogKeysArePlain()
    ensures IsPlainKey("raw_logs") && IsPlainKey("raw_tool_log") && IsPlainKey("raw_tool_logs")
    ensures IsPlainKey("tool_logs") && IsPlainKey("stdout") && IsPlainKey("stderr")
  {
  }

  lemma RawTextKeysArePlain()
    ensures IsPlainKey("transcript") && IsPlainKey("raw_transcript")
    ensures IsPlainKey("tool_output") && IsPlainKey("tool_outputs") && IsPlainKey("scratchpad")
  {
  }

  lemma RawReasoningKeysArePlain()
    ensures IsPlainKey("chain_of_thought") && IsPlainKey("hidden_reasoning")
    ensures IsPlainKey("internal_reasoning") && IsPlainKey("reasoning_trace")
  {
  }

  lemma RawKeysArePrivate(key: string)
    requires key in RAW_KEYS
    ensures IsPrivateKey(key)
  {
    assert IsPlainKey(key) by {
      RawLogKeysArePlain();
      RawTextKeysArePlain();
      RawReasoningKeysArePlain();
    }
    PlainKeyIsNormal(key);
  }

  /** Ordering after sanitising removes nothing more. */
  lemma OrderedKeepsClean(content: Fields)
    requires Clean(content)
    ensures OrderedContent(content) == content
  {
    forall k | k in content ensures k !in RAW_KEYS {
      if k in RAW_KEYS { RawKeysArePrivate(k); }
    }
  }

  /* ---------------------------------------------------------- references */

  function RemovePrefix(s: string, prefix: string): string {
    if prefix <= s then s[|prefix|..] else s
  }

  /** Context references are spelled as snapshot references. */
  function RefValue(ref: string): string {
    if "context://" <= ref then "snapshot://" + ref[|"context://"|..] else ref
  }

  predicate IsReference(s: string) {
    || "artifact://" <= s || "snapshot://" <= s || "context://" <= s
    || "contract://" <= s || "decision://" <= s || "baseline://" <= s
  }

  /** The causal references a value names, outside private members. */
  function InputRefs(v: Json): set<string> {
    match v
    case Text(s) => if IsReference(s) then {RefValue(s)} else {}
    case Obj(fields) =>
      set k, r | k in fields && !IsPrivateKey(k) && r in InputRefs(fields[k]) :: r
    case Arr(items) =>
      set i, r | 0 <= i < |items| && r in InputRefs(items[i]) :: r
    case _ => {}
  }

  lemma {:induction false} InputRefsAreNamed(v: Json)
    ensures "" !in InputRefs(v)
  {
    match v
    case Obj(fields) => forall k | k in fields ensures "" !in InputRefs(fields[k]) { InputRefsAreNamed(fields[k]); }
    case Arr(items) => forall i | 0 <= i < |items| ensures "" !in InputRefs(items[i]) { InputRefsAreNamed(items[i]); }
    case _ =>
  }

  /** Some string in the value is the marker or one of its `@` revisions. */
  predicate ContainsExact(v: Json, marker: string) {
    match v
    case Text(s) => MatchesMarker(s, marker)
    case Obj(fields) => exists k | k in fields :: k != INTERNAL_META_KEY && ContainsExact(fields[k], marker)
    case Arr(items) => exists i | 0 <= i < |items| :: ContainsExact(items[i], marker)
    case _ => false
  }

  predicate MatchesMarker(s: string, marker: string) {
    s == marker || marker + "@" <= s
  }

  /* --------------------------------------------------------------- views */

  datatype ViewName = ConversationSnapshot | CoordinatorSnapshot | LaneSnapshot | WorkUnitSlice

  datatype Visibility = LocalOnly | LaneWide | CoordinatorWide | UserWide

  /** The artifact table: payload hash to visibility.  Rows are only ever inserted. */
  type Artifacts = map<string, Visibility>

  const COMMON_VIEW_FIELDS: set<string> := {
    "objective", "goal", "status", "summary", "accepted_decisions", "known_facts",
    "blockers", "open_questions", "exports", "artifact_refs", "pinned_artifacts"
  }

  function ViewFields(view: ViewName): set<string> {
    match view
    case ConversationSnapshot => COMMON_VIEW_FIELDS + {"progress", "next_actions", "user_message"}
    case CoordinatorSnapshot => COMMON_VIEW_FIELDS + {
      "contract_ref", "imports", "active_work", "failed_assumptions", "file_index",
      "lane_summaries", "task_summaries", "checks", "promotion_requests", "dependencies"
    }
    case LaneSnapshot => COMMON_VIEW_FIELDS + {
      "task_id", "lane_id", "contract", "contract_ref", "imports", "active_work",
      "failed_assumptions", "file_index", "files", "checks", "ownership", "dependencies"
    }
    case WorkUnitSlice => COMMON_VIEW_FIELDS + {
      "task_id", "lane_id", "work_unit_id", "parent_ref", "contract", "contract_ref",
      "imports", "active_work", "failed_assumptions", "file_index", "files", "checks",
      "ownership", "authority", "scope", "dependencies"
    }
  }

  predicate CanShow(view: ViewName, visibility: Visibility) {
    match view
    case ConversationSnapshot => visibility.UserWide?
    case CoordinatorSnapshot => visibility.UserWide? || visibility.CoordinatorWide?
    case LaneSnapshot => !visibility.LocalOnly?
    case WorkUnitSlice => true
  }

  predicate NamesArtifact(s: string) {
    "artifact://" <= s || "sha256:" <= s
  }

  function ArtifactKey(ref: string): string {
    RemovePrefix(RemovePrefix(ref, "artifact://"), "sha256:")
  }

  predicate IsVisible(ref: string, view: ViewName, artifacts: Artifacts) {
    ArtifactKey(ref) in artifacts && CanShow(view, artifacts[ArtifactKey(ref)])
  }

  /** The value without the artifacts the view may not show; None when it is one itself. */
  function FilterArtifacts(v: Json, view: ViewName, artifacts: Artifacts): Option<Json>
    decreases v, 1
  {
    match v
    case Text(s) => if NamesArtifact(s) && !IsVisible(s, view, artifacts) then None else Some(v)
    case Obj(fields) =>
      Some(Obj(map k | k in fields && FilterArtifacts(fields[k], view, artifacts).Some? ::
        FilterArtifacts(fields[k], view, artifacts).value))
    case Arr(items) => Some(Arr(FilterItems(items, view, artifacts)))
    case _ => Some(v)
  }

  function FilterItems(items: seq<Json>, view: ViewName, artifacts: Artifacts): (kept: seq<Json>)
    ensures |kept| <= |items|
    decreases items, 0
  {
    if items == [] then []
    else
      var rest := FilterItems(items[1..], view, artifacts);
      match FilterArtifacts(items[0], view, artifacts)
      case None => rest
      case Some(item) => [item] + rest
  }

  /** The members of a content a view may show at all. */
  function Allowed(content: Fields, view: ViewName): Fields {
    map k | k in content && k in ViewFields(view) :: content[k]
  }

  function Project(content: Fields, view: ViewName, artifacts: Artifacts): Fields {
    OrderedContent(FilterArtifacts(Obj(Allowed(content, view)), view, artifacts).value.fields)
  }

  /** Every artifact named at any depth is registered and visible to the view. */
  ghost predicate ShowsOnlyVisible(v: Json, view: ViewName, artifacts: Artifacts) {
    match v
    case Text(s) => NamesArtifact(s) ==> IsVisible(s, view, artifacts)
    case Obj(fields) => forall k | k in fields :: ShowsOnlyVisible(fields[k], view, artifacts)
    case Arr(items) => forall i | 0 <= i < |items| :: ShowsOnlyVisible(items[i], view, artifacts)
    case _ => true
  }

  ghost predicate IsSafeView(content: Fields, view: ViewName, artifacts: Artifacts) {
    && content.Keys <= ViewFields(view)
    && Clean(content)
    && ShowsOnlyVisible(Obj(content), view, artifacts)
  }

  /** Filtering yields only what the view may show, and keeps a value exactly when all of it may be shown. */
  lemma {:induction false} FilteredShowsOnlyVisible(v: Json, view: ViewName, artifacts: Artifacts)
    ensures var kept := FilterArtifacts(v, view, artifacts);
            && (kept.Some? ==> ShowsOnlyVisible(kept.value, view, artifacts))
            && (kept == Some(v) <==> ShowsOnlyVisible(v, view, artifacts))
    decreases v, 1
  {
    match v
    case Obj(fields) =>
      forall k | k in fields
        ensures var kept := FilterArtifacts(fields[k], view, artifacts);
          && (kept.Some? ==> ShowsOnlyVisible(kept.value, view, artifacts))
          && (kept == Some(fields[k]) <==> ShowsOnlyVisible(fields[k], view, artifacts))
      {
        FilteredShowsOnlyVisible(fields[k], view, artifacts);
      }
      var kept := FilterArtifacts(v, view, artifacts).value.fields;
      if ShowsOnlyVisible(v, view, artifacts) {
        assert kept == fields;
      } else {
        var k :| k in fields && !ShowsOnlyVisible(fields[k], view, artifacts);
        assert k !in kept || kept[k] != fields[k];
      }
    case Arr(items) =>
      FilteredItemsShowOnlyVisible(items, view, artifacts);
    case _ =>
  }

  lemma SameHeadAndTail<T>(head: T, tail: seq<T>, s: seq<T>)
    requires s != []
    ensures [head] + tail == s <==> head == s[0] && tail == s[1..]
  {
    var t := [head] + tail;
    assert t[0] == head && t[1..] == tail;
    assert s == [s[0]] + s[1..];
  }

  lemma {:induction false} FilteredItemsShowOnlyVisible(items: seq<Json>, view: ViewName, artifacts: Artifacts)
    ensures ShowsOnlyVisible(Arr(FilterItems(items, view, artifacts)), view, artifacts)
    ensures FilterItems(items, view, artifacts) == items <==> ShowsOnlyVisible(Arr(items), view, artifacts)
    decreases items, 0
  {
    if items != [] {
      FilteredShowsOnlyVisible(items[0], view, artifacts);
      FilteredItemsShowOnlyVisible(items[1..], view, artifacts);
      var rest := FilterItems(items[1..], view, artifacts);
      assert forall i | 1 <= i < |items| :: items[i] == items[1..][i - 1];
      assert items == [items[0]] + items[1..];
      var first := FilterArtifacts(items[0], view, artifacts);
      if first.Some? {
        var kept := [first.value] + rest;
        assert forall i | 1 <= i < |kept| :: kept[i] == rest[i - 1];
        SameHeadAndTail(first.value, rest, items);
      } else {
        assert |rest| < |items|;
      }
    }
  }

  lemma {:induction false} FilteredIsClean(v: Json, view: ViewName, artifacts: Artifacts)
    requires CleanValue(v)
    ensures var kept := FilterArtifacts(v, view, artifacts); kept.Some? ==> CleanValue(kept.value)
    decreases v, 1
  {
    match v
    case Obj(fields) =>
      forall k | k in fields && FilterArtifacts(fields[k], view, artifacts).Some?
        ensures CleanValue(FilterArtifacts(fields[k], view, artifacts).value)
      {
        FilteredIsClean(fields[k], view, artifacts);
      }
    case Arr(items) => FilteredItemsAreClean(items, view, artifacts);
    case _ =>
  }

  lemma {:induction false} FilteredItemsAreClean(items: seq<Json>, view: ViewName, artifacts: Artifacts)
    requires forall i | 0 <= i < |items| :: CleanValue(items[i])
    ensures forall item | item in FilterItems(items, view, artifacts) :: CleanValue(item)
    decreases items, 0
  {
    if items != [] {
      FilteredIsClean(items[0], view, artifacts);
      FilteredItemsAreClean(items[1..], view, artifacts);
    }
  }

  lemma ProjectionIsSafe(content: Fields, view: ViewName, artifacts: Artifacts)
    requires Clean(content)
    ensures IsSafeView(Project(content, view, artifacts), view, artifacts)
  {
    var allowed := map k | k in content && k in ViewFields(view) :: content[k];
    FilteredShowsOnlyVisible(Obj(allowed), view, artifacts);
    FilteredIsClean(Obj(allowed), view, artifacts);
    OrderedKeepsClean(FilterArtifacts(Obj(allowed), view, artifacts).value.fields);
  }

  ghost predicate Registered(before: Artifacts, after: Artifacts) {
    before.Keys <= after.Keys && forall k | k in before :: after[k] == before[k]
  }

  /** A view that was safe stays safe when more artifacts are registered. */
  lemma {:induction false} VisibleStaysVisible(v: Json, view: ViewName, before: Artifacts, after: Artifacts)
    requires Registered(before, after)
    requires ShowsOnlyVisible(v, view, before)
    ensures ShowsOnlyVisible(v, view, after)
  {
    match v
    case Obj(fields) =>
      forall k | k in fields ensures ShowsOnlyVisible(fields[k], view, after) {
        VisibleStaysVisible(fields[k], view, before, after);
      }
    case Arr(items) =>
      forall i | 0 <= i < |items| ensures ShowsOnlyVisible(items[i], view, after) {
        VisibleStaysVisible(items[i], view, before, after);
      }
    case _ =>
  }
}
