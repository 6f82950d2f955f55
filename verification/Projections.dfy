/** When a cached projection is still the one that would be computed now. */
module Projections {
  import opened Common
  import opened Json
  import opened Content

  /** Every artifact named at any depth may be shown under both artifact tables or under neither. */
  ghost predicate SeenAlike(v: Json, view: ViewName, before: Artifacts, after: Artifacts) {
    match v
    case Text(s) => NamesArtifact(s) ==> (IsVisible(s, view, before) <==> IsVisible(s, view, after))
    case Obj(fields) => forall k | k in fields :: SeenAlike(fields[k], view, before, after)
    case Arr(items) => forall i | 0 <= i < |items| :: SeenAlike(items[i], view, before, after)
    case _ => true
  }

  ghost predicate AllSeenAlike(items: seq<Json>, view: ViewName, before: Artifacts, after: Artifacts) {
    forall i | 0 <= i < |items| :: SeenAlike(items[i], view, before, after)
  }

  lemma {:induction false} FilterAgreesExactly(v: Json, view: ViewName, before: Artifacts, after: Artifacts)
    requires Registered(before, after)
    ensures FilterArtifacts(v, view, before).Some? ==> FilterArtifacts(v, view, after).Some?
    ensures FilterArtifacts(v, view, before) == FilterArtifacts(v, view, after) <==> SeenAlike(v, view, before, after)
    decreases v, 1
  {
    match v
    case Obj(fields) =>
      forall k | k in fields
        ensures FilterArtifacts(fields[k], view, before).Some? ==> FilterArtifacts(fields[k], view, after).Some?
        ensures FilterArtifacts(fields[k], view, before) == FilterArtifacts(fields[k], view, after)
          <==> SeenAlike(fields[k], view, before, after)
      {
        FilterAgreesExactly(fields[k], view, before, after);
      }
      FieldsAgree(fields, view, before, after);
    case Arr(items) => ItemsAgreeExactly(items, view, before, after);
    case _ =>
  }

  lemma FieldsAgree(fields: Fields, view: ViewName, before: Artifacts, after: Artifacts)
    requires forall k | k in fields ::
      FilterArtifacts(fields[k], view, before) == FilterArtifacts(fields[k], view, after) <==> SeenAlike(fields[k], view, before, after)
    ensures FilterArtifacts(Obj(fields), view, before) == FilterArtifacts(Obj(fields), view, after)
      <==> SeenAlike(Obj(fields), view, before, after)
  {
    var was, now := FilterArtifacts(Obj(fields), view, before).value.fields, FilterArtifacts(Obj(fields), view, after).value.fields;
    if was == now {
      forall k | k in fields ensures FilterArtifacts(fields[k], view, before) == FilterArtifacts(fields[k], view, after) {
        assert k in was <==> k in now;
      }
      assert SeenAlike(Obj(fields), view, before, after);
    }
    assert SeenAlike(Obj(fields), view, before, after) ==> was == now;
  }

  lemma {:induction false} ItemsAgreeExactly(items: seq<Json>, view: ViewName, before: Artifacts, after: Artifacts)
    requires Registered(before, after)
    ensures |FilterItems(items, view, before)| <= |FilterItems(items, view, after)|
    ensures FilterItems(items, view, before) == FilterItems(items, view, after) <==> AllSeenAlike(items, view, before, after)
    decreases items, 0
  {
    if items != [] {
      FilterAgreesExactly(items[0], view, before, after);
      ItemsAgreeExactly(items[1..], view, before, after);
      HeadAndTailAlike(items, view, before, after);
      var was, now := FilterArtifacts(items[0], view, before), FilterArtifacts(items[0], view, after);
      var restWas, restNow := FilterItems(items[1..], view, before), FilterItems(items[1..], view, after);
      if was.Some? {
        assert ([was.value] + restWas)[0] == was.value && ([was.value] + restWas)[1..] == restWas;
        assert ([now.value] + restNow)[0] == now.value && ([now.value] + restNow)[1..] == restNow;
      }
    }
  }

  lemma HeadAndTailAlike(items: seq<Json>, view: ViewName, before: Artifacts, after: Artifacts)
    requires items != []
    ensures AllSeenAlike(items, view, before, after) <==>
      SeenAlike(items[0], view, before, after) && AllSeenAlike(items[1..], view, before, after)
  {
    assert forall i | 1 <= i < |items| :: items[i] == items[1..][i - 1];
  }

  /** A projection computed under an earlier artifact table, as the projection cache keeps it, equals the
      one computed under the present table exactly when no artifact the view's members name has become
      visible since; and it never has a member the present one has not. */
  lemma CachedProjectionIsFreshExactly(content: Fields, view: ViewName, before: Artifacts, after: Artifacts)
    requires Clean(content) && Registered(before, after)
    ensures Project(content, view, before) == Project(content, view, after)
      <==> SeenAlike(Obj(Allowed(content, view)), view, before, after)
    ensures Project(content, view, before).Keys <= Project(content, view, after).Keys
  {
    var allowed := Allowed(content, view);
    FilterAgreesExactly(Obj(allowed), view, before, after);
    FilteredIsClean(Obj(allowed), view, before);
    FilteredIsClean(Obj(allowed), view, after);
    OrderedKeepsClean(FilterArtifacts(Obj(allowed), view, before).value.fields);
    OrderedKeepsClean(FilterArtifacts(Obj(allowed), view, after).value.fields);
    forall k | k in allowed ensures FilterArtifacts(allowed[k], view, before).Some? ==> FilterArtifacts(allowed[k], view, after).Some? {
      FilterAgreesExactly(allowed[k], view, before, after);
    }
  }

  lemma SummaryIsShown(view: ViewName)
    ensures "summary" in ViewFields(view)
  {
  }

  lemma RegisteredIsSeenUnlike()
    ensures !SeenAlike(Text("sha256:h"), LaneSnapshot, map[], map["h" := UserWide])
  {
    var ref := "sha256:h";
    assert "sha256:" <= ref && ref[7..] == "h";
    assert ref[0] == 's' && !("artifact://" <= ref);
    assert ArtifactKey(ref) == "h";
  }

  /** A summary that names an artifact registered after its projection was cached: the cached one lacks it. */
  lemma StaleProjection()
    ensures var content: Fields := map["summary" := Text("sha256:h")];
      && Clean(content) && Registered(map[], map["h" := UserWide])
      && Project(content, LaneSnapshot, map[]) != Project(content, LaneSnapshot, map["h" := UserWide])
  {
    var content: Fields := map["summary" := Text("sha256:h")];
    var before: Artifacts, after: Artifacts := map[], map["h" := UserWide];
    assert Clean(content) by { SummaryIsKept(); }
    assert "summary" in Allowed(content, LaneSnapshot) by { SummaryIsShown(LaneSnapshot); }
    assert !SeenAlike(Allowed(content, LaneSnapshot)["summary"], LaneSnapshot, before, after) by { RegisteredIsSeenUnlike(); }
    CachedProjectionIsFreshExactly(content, LaneSnapshot, before, after);
  }

  /** How the fields of the views relate: a work unit sees what its lane sees and four fields more; a lane
      and a coordinator see the same but for five fields of the one and three of the other; and what a
      conversation sees of its own is three fields. */
  lemma ViewsRelate()
    ensures ViewFields(WorkUnitSlice) == ViewFields(LaneSnapshot) + {"work_unit_id", "parent_ref", "authority", "scope"}
    ensures ViewFields(LaneSnapshot) + {"lane_summaries", "task_summaries", "promotion_requests"}
      == ViewFields(CoordinatorSnapshot) + {"task_id", "lane_id", "contract", "files", "ownership"}
    ensures ViewFields(ConversationSnapshot) + ViewFields(LaneSnapshot)
      == ViewFields(LaneSnapshot) + {"progress", "next_actions", "user_message"}
  {
  }

  /** The reference names the artifact, in one of the ways there are: with either prefix, with both, or with
      none. */
  predicate IsNameOf(ref: string, sha: string) {
    ref == sha || ref == "artifact://" + sha || ref == "sha256:" + sha || ref == "artifact://sha256:" + sha
  }

  /** An artifact is shown exactly when it is registered and its visibility reaches the view: everything
      reaches a work unit, what is not local a lane, what is a coordinator's or the user's a coordinator,
      and what is the user's a conversation. */
  lemma VisibleExactly(sha: string, ref: string, view: ViewName, artifacts: Artifacts)
    requires IsNameOf(ref, sha) && !("artifact://" <= sha) && !("sha256:" <= sha)
    ensures IsVisible(ref, view, artifacts) <==>
      && sha in artifacts
      && match view
         case ConversationSnapshot => artifacts[sha] == UserWide
         case CoordinatorSnapshot => artifacts[sha] == UserWide || artifacts[sha] == CoordinatorWide
         case LaneSnapshot => artifacts[sha] != LocalOnly
         case WorkUnitSlice => true
  {
    assert "artifact://"[0] != "sha256:"[0];
    assert ("artifact://" + ("sha256:" + sha))[11..] == "sha256:" + sha;
    assert "artifact://sha256:" + sha == "artifact://" + ("sha256:" + sha);
    assert ("artifact://" + sha)[11..] == sha && ("sha256:" + sha)[7..] == sha;
  }

  /** A text names an artifact exactly when it starts like one. */
  lemma NamesArtifactExactly(s: string)
    ensures NamesArtifact(s) <==> exists rest :: s == "artifact://" + rest || s == "sha256:" + rest
  {
    if "artifact://" <= s { assert s == "artifact://" + s[11..]; }
    if "sha256:" <= s { assert s == "sha256:" + s[7..]; }
  }
}
