/** Where things stand in a value, and what sanitising, merging, filtering and the search for references
    do to what stands at a path. */
module Occurrences {
  import opened Common
  import opened Json
  import opened Content

  /** One step into a value: to a member of an object or to an item of an array. */
  datatype Move = Member(key: string) | Item(index: nat)

  /** What stands at a path. */
  function AtPath(v: Json, path: seq<Move>): Option<Json>
    decreases |path|
  {
    if path == [] then Some(v)
    else
      match path[0]
      case Member(k) => if v.Obj? && k in v.fields then AtPath(v.fields[k], path[1..]) else None
      case Item(i) => if v.Arr? && i < |v.items| then AtPath(v.items[i], path[1..]) else None
  }

  predicate IsLeaf(v: Json) {
    !v.Obj? && !v.Arr?
  }

  /** The value has the leaf somewhere. */
  ghost predicate Holds(v: Json, leaf: Json) {
    exists path :: AtPath(v, path) == Some(leaf)
  }

  lemma HoldsAt(v: Json, path: seq<Move>, leaf: Json)
    requires AtPath(v, path) == Some(leaf)
    ensures Holds(v, leaf)
  {
  }

  lemma MemberHolds(fields: Fields, k: string, leaf: Json)
    requires k in fields && Holds(fields[k], leaf)
    ensures Holds(Obj(fields), leaf)
  {
    var path :| AtPath(fields[k], path) == Some(leaf);
    assert ([Member(k)] + path)[1..] == path;
    HoldsAt(Obj(fields), [Member(k)] + path, leaf);
  }

  lemma ItemHolds(items: seq<Json>, i: nat, leaf: Json)
    requires i < |items| && Holds(items[i], leaf)
    ensures Holds(Arr(items), leaf)
  {
    var path :| AtPath(items[i], path) == Some(leaf);
    assert ([Item(i)] + path)[1..] == path;
    HoldsAt(Arr(items), [Item(i)] + path, leaf);
  }

  /** A leaf of a value is the value itself, or a leaf of one of its members or items. */
  lemma HoldsBelow(v: Json, leaf: Json)
    requires Holds(v, leaf) && IsLeaf(leaf)
    ensures match v
      case Obj(fields) => exists k | k in fields :: Holds(fields[k], leaf)
      case Arr(items) => exists i | 0 <= i < |items| :: Holds(items[i], leaf)
      case _ => leaf == v
  {
    var path :| AtPath(v, path) == Some(leaf);
    if path != [] {
      match path[0]
      case Member(k) => HoldsAt(v.fields[k], path[1..], leaf);
      case Item(i) => HoldsAt(v.items[i], path[1..], leaf);
    }
  }

  /* ------------------------------------------------------------------- sanitising */

  /** No member on the path is one that sanitising skips. */
  predicate IsOpen(v: Json, path: seq<Move>, lane: Option<string>)
    decreases |path|
  {
    path == [] ||
      match path[0]
      case Member(k) => v.Obj? && k in v.fields && !IsDroppedMember(k, v.fields[k], lane) && IsOpen(v.fields[k], path[1..], lane)
      case Item(i) => v.Arr? && i < |v.items| && IsOpen(v.items[i], path[1..], lane)
  }

  /** The same kind of value: the same leaf, or both objects, or arrays of the same length. */
  predicate SameKind(a: Json, b: Json) {
    match a
    case Obj(_) => b.Obj?
    case Arr(items) => b.Arr? && |b.items| == |items|
    case _ => a == b
  }

  /** Sanitising removes exactly what lies behind a skipped member: at every other path there stands what
      stood there, at the same place. */
  lemma {:induction false} SanitizedAtPath(v: Json, path: seq<Move>, lane: Option<string>)
    ensures var before, after := AtPath(v, path), AtPath(SanitizeValue(v, lane), path);
      && (after.Some? <==> before.Some? && IsOpen(v, path, lane))
      && (after.Some? ==> SameKind(before.value, after.value))
    decreases |path|
  {
    if path != [] {
      match path[0]
      case Member(k) =>
        if v.Obj? && k in v.fields && !IsDroppedMember(k, v.fields[k], lane) {
          assert SanitizeValue(v, lane).fields[k] == SanitizeValue(v.fields[k], lane);
          SanitizedAtPath(v.fields[k], path[1..], lane);
        }
      case Item(i) =>
        if v.Arr? && i < |v.items| { SanitizedAtPath(v.items[i], path[1..], lane); }
    }
  }

  /** A leaf stands at a path of sanitised content exactly when it stood there and no member on the path
      is skipped; a member of the content is kept exactly when it is none to be skipped. */
  lemma SanitizingKeepsExactly(content: Fields, path: seq<Move>, leaf: Json, lane: Option<string>)
    requires IsLeaf(leaf)
    ensures AtPath(Obj(Sanitize(content, lane)), path) == Some(leaf) <==>
      AtPath(Obj(content), path) == Some(leaf) && IsOpen(Obj(content), path, lane)
    ensures forall k :: k in Sanitize(content, lane) <==> k in content && !IsDroppedMember(k, content[k], lane)
  {
    SanitizedAtPath(Obj(content), path, lane);
  }

  /* -------------------------------------------------------------------- merging */

  /** What stands behind a path of member names. */
  function AtKeys(v: Json, keys: seq<string>): Option<Json>
    decreases |keys|
  {
    if keys == [] then Some(v)
    else if v.Obj? && keys[0] in v.fields then AtKeys(v.fields[keys[0]], keys[1..])
    else None
  }

  /** The delta has something at the path or puts something that is no object above it. */
  ghost predicate Overrides(delta: Json, keys: seq<string>) {
    exists n | 0 < n <= |keys| ::
      AtKeys(delta, keys[..n]).Some? && (n < |keys| ==> !AtKeys(delta, keys[..n]).value.Obj?)
  }

  lemma OverridesBelow(delta: Fields, keys: seq<string>)
    requires keys != [] && keys[0] in delta && delta[keys[0]].Obj? && |keys| > 1
    ensures Overrides(Obj(delta), keys) <==> Overrides(delta[keys[0]], keys[1..])
  {
    var inner := delta[keys[0]];
    forall n | 0 < n <= |keys| ensures AtKeys(Obj(delta), keys[..n]) == AtKeys(inner, keys[1..][..n - 1]) {
      assert keys[..n][1..] == keys[1..][..n - 1];
    }
    if Overrides(Obj(delta), keys) {
      var n :| 0 < n <= |keys| && AtKeys(Obj(delta), keys[..n]).Some? && (n < |keys| ==> !AtKeys(Obj(delta), keys[..n]).value.Obj?);
      assert AtKeys(inner, keys[1..][..n - 1]) == AtKeys(Obj(delta), keys[..n]);
    }
    if Overrides(inner, keys[1..]) {
      var m :| 0 < m <= |keys[1..]| && AtKeys(inner, keys[1..][..m]).Some? && (m < |keys[1..]| ==> !AtKeys(inner, keys[1..][..m]).value.Obj?);
      assert AtKeys(Obj(delta), keys[..m + 1]) == AtKeys(inner, keys[1..][..m]);
    }
  }

  lemma OverridesAtOnce(delta: Fields, keys: seq<string>)
    requires keys != []
    ensures keys[0] !in delta ==> !Overrides(Obj(delta), keys)
    ensures keys[0] in delta && (|keys| == 1 || !delta[keys[0]].Obj?) ==> Overrides(Obj(delta), keys)
  {
    if keys[0] !in delta {
      forall n | 0 < n <= |keys| ensures AtKeys(Obj(delta), keys[..n]).None? {}
    } else {
      assert keys[..1] == [keys[0]];
      assert AtKeys(Obj(delta), keys[..1]) == AtKeys(delta[keys[0]], []);
    }
  }

  /** The last word at every path: what is no object stands in a merge exactly when the delta puts it
      there, unless it is a null where the base has something, or the base has it and the delta overrides
      nothing on the way. */
  lemma {:induction false} MergedAtKeys(base: Fields, delta: Fields, keys: seq<string>, leaf: Json)
    requires !leaf.Obj?
    ensures AtKeys(Obj(Merge(base, delta)), keys) == Some(leaf) <==>
      || (AtKeys(Obj(delta), keys) == Some(leaf) && !(leaf.Null? && AtKeys(Obj(base), keys).Some?))
      || (AtKeys(Obj(base), keys) == Some(leaf) && !Overrides(Obj(delta), keys))
    decreases |keys|
  {
    if keys != [] {
      var k, rest := keys[0], keys[1..];
      OverridesAtOnce(delta, keys);
      MergeAt(base, delta, k);
      if k in base && k in delta && base[k].Obj? && delta[k].Obj? {
        MergedAtKeys(base[k].fields, delta[k].fields, rest, leaf);
        if |keys| > 1 { OverridesBelow(delta, keys); }
      }
    }
  }

  /** Stripping nulls takes the nulls and nothing else. */
  lemma {:induction false} StrippedAtKeys(content: Fields, keys: seq<string>, leaf: Json)
    requires !leaf.Obj?
    ensures AtKeys(Obj(StripNulls(content)), keys) == Some(leaf) <==> AtKeys(Obj(content), keys) == Some(leaf) && !leaf.Null?
    decreases |keys|
  {
    if keys != [] && keys[0] in content && content[keys[0]].Obj? {
      StrippedAtKeys(content[keys[0]].fields, keys[1..], leaf);
    }
  }

  /* ------------------------------------------------------------------- filtering */

  /** A text that names an artifact the view may not show. */
  predicate IsHidden(leaf: Json, view: ViewName, artifacts: Artifacts) {
    leaf.Text? && NamesArtifact(leaf.text) && !IsVisible(leaf.text, view, artifacts)
  }

  /** Filtering takes the hidden artifacts and nothing else; a member goes exactly when it is one itself. */
  lemma {:induction false} FilteredHolds(v: Json, view: ViewName, artifacts: Artifacts, leaf: Json)
    requires IsLeaf(leaf)
    ensures var kept := FilterArtifacts(v, view, artifacts);
      && (kept.None? <==> IsHidden(v, view, artifacts))
      && (kept.Some? ==> (Holds(kept.value, leaf) <==> Holds(v, leaf) && !IsHidden(leaf, view, artifacts)))
      && (kept.Some? && v.Obj? ==>
            kept.value.Obj? && forall k :: k in kept.value.fields <==> k in v.fields && !IsHidden(v.fields[k], view, artifacts))
    decreases v, 1
  {
    match v
    case Obj(fields) =>
      FilteredMembersHold(fields, view, artifacts, leaf);
    case Arr(items) =>
      FilteredItemsHold(items, view, artifacts, leaf);
    case _ =>
      HoldsAt(v, [], v);
      if Holds(v, leaf) { HoldsBelow(v, leaf); }
  }

  lemma {:induction false} FilteredMembersHold(fields: Fields, view: ViewName, artifacts: Artifacts, leaf: Json)
    requires IsLeaf(leaf)
    ensures var kept := FilterArtifacts(Obj(fields), view, artifacts).value.fields;
      && (forall k :: k in kept <==> k in fields && !IsHidden(fields[k], view, artifacts))
      && (Holds(Obj(kept), leaf) <==> Holds(Obj(fields), leaf) && !IsHidden(leaf, view, artifacts))
    decreases Obj(fields), 0
  {
    var kept := FilterArtifacts(Obj(fields), view, artifacts).value.fields;
    forall k | k in fields
      ensures k in kept <==> !IsHidden(fields[k], view, artifacts)
      ensures k in kept ==> (Holds(kept[k], leaf) <==> Holds(fields[k], leaf) && !IsHidden(leaf, view, artifacts))
    {
      FilteredHolds(fields[k], view, artifacts, leaf);
    }
    if Holds(Obj(kept), leaf) {
      HoldsBelow(Obj(kept), leaf);
      var k :| k in kept && Holds(kept[k], leaf);
      MemberHolds(fields, k, leaf);
    }
    if Holds(Obj(fields), leaf) && !IsHidden(leaf, view, artifacts) {
      HoldsBelow(Obj(fields), leaf);
      var k :| k in fields && Holds(fields[k], leaf);
      if IsHidden(fields[k], view, artifacts) { HoldsBelow(fields[k], leaf); }
      MemberHolds(kept, k, leaf);
    }
  }

  lemma ConsHolds(item: Json, rest: seq<Json>, leaf: Json)
    requires IsLeaf(leaf)
    ensures Holds(Arr([item] + rest), leaf) <==> Holds(item, leaf) || Holds(Arr(rest), leaf)
  {
    var all := [item] + rest;
    if Holds(Arr(all), leaf) {
      HoldsBelow(Arr(all), leaf);
      var i :| 0 <= i < |all| && Holds(all[i], leaf);
      if i > 0 { ItemHolds(rest, i - 1, leaf); }
    }
    if Holds(item, leaf) { ItemHolds(all, 0, leaf); }
    if Holds(Arr(rest), leaf) {
      HoldsBelow(Arr(rest), leaf);
      var i :| 0 <= i < |rest| && Holds(rest[i], leaf);
      ItemHolds(all, i + 1, leaf);
    }
  }

  lemma {:induction false} FilteredItemsHold(items: seq<Json>, view: ViewName, artifacts: Artifacts, leaf: Json)
    requires IsLeaf(leaf)
    ensures Holds(Arr(FilterItems(items, view, artifacts)), leaf) <==> Holds(Arr(items), leaf) && !IsHidden(leaf, view, artifacts)
    decreases items, 0
  {
    if items == [] {
      if Holds(Arr([]), leaf) { HoldsBelow(Arr([]), leaf); }
    } else {
      FilteredHolds(items[0], view, artifacts, leaf);
      FilteredItemsHold(items[1..], view, artifacts, leaf);
      assert items == [items[0]] + items[1..];
      ConsHolds(items[0], items[1..], leaf);
      var first := FilterArtifacts(items[0], view, artifacts);
      if first.Some? {
        ConsHolds(first.value, FilterItems(items[1..], view, artifacts), leaf);
      } else if Holds(items[0], leaf) {
        HoldsBelow(items[0], leaf);
      }
    }
  }

  /** A projection has exactly the members the view is for and may show, and in them every leaf but the
      artifacts it may not show. */
  lemma ProjectionKeepsExactly(content: Fields, view: ViewName, artifacts: Artifacts, k: string, leaf: Json)
    requires Clean(content) && IsLeaf(leaf)
    ensures var shown := Project(content, view, artifacts);
      && (k in shown <==> k in content && k in ViewFields(view) && !IsHidden(content[k], view, artifacts))
      && (k in shown ==> (Holds(shown[k], leaf) <==> Holds(content[k], leaf) && !IsHidden(leaf, view, artifacts)))
  {
    var allowed := Allowed(content, view);
    FilteredMembersHold(allowed, view, artifacts, leaf);
    FilteredIsClean(Obj(allowed), view, artifacts);
    OrderedKeepsClean(FilterArtifacts(Obj(allowed), view, artifacts).value.fields);
    if k in allowed { FilteredHolds(allowed[k], view, artifacts, leaf); }
  }

  /* ------------------------------------------------------------------ references */

  /** No member on the path is private. */
  predicate IsPublic(path: seq<Move>) {
    forall i | 0 <= i < |path| && path[i].Member? :: !IsPrivateKey(path[i].key)
  }

  /** The value names the reference: some text outside private members is a reference spelled like it. */
  ghost predicate Refers(v: Json, r: string) {
    exists path, s {:trigger AtPath(v, path), RefValue(s)} ::
      AtPath(v, path) == Some(Text(s)) && IsPublic(path) && IsReference(s) && RefValue(s) == r
  }

  lemma ReferredBelow(v: Json, r: string)
    requires Refers(v, r)
    ensures match v
      case Text(s) => IsReference(s) && RefValue(s) == r
      case Obj(fields) => exists k | k in fields :: !IsPrivateKey(k) && Refers(fields[k], r)
      case Arr(items) => exists i | 0 <= i < |items| :: Refers(items[i], r)
      case _ => false
  {
    var path, s {:trigger AtPath(v, path), RefValue(s)} :|
      AtPath(v, path) == Some(Text(s)) && IsPublic(path) && IsReference(s) && RefValue(s) == r;
    if path != [] {
      assert forall i | 0 <= i < |path[1..]| :: path[1..][i] == path[i + 1];
      match path[0]
      case Member(k) => assert AtPath(v.fields[k], path[1..]) == Some(Text(s));
      case Item(i) => assert AtPath(v.items[i], path[1..]) == Some(Text(s));
    }
  }

  lemma StepRefers(v: Json, move: Move, inner: Json, r: string)
    requires AtPath(v, [move]) == Some(inner) && Refers(inner, r) && (move.Member? ==> !IsPrivateKey(move.key))
    ensures Refers(v, r)
  {
    var path, s {:trigger AtPath(inner, path), RefValue(s)} :|
      AtPath(inner, path) == Some(Text(s)) && IsPublic(path) && IsReference(s) && RefValue(s) == r;
    var longer := [move] + path;
    assert longer[1..] == path && [move][1..] == [];
    assert IsPublic(longer) && AtPath(v, longer) == Some(Text(s));
  }

  /** The search finds exactly the references the value names. */
  lemma {:induction false} InputRefsExactly(v: Json, r: string)
    ensures r in InputRefs(v) <==> Refers(v, r)
  {
    match v
    case Text(s) =>
      if IsReference(s) && RefValue(s) == r {
        assert AtPath(v, []) == Some(Text(s)) && IsPublic([]);
      }
      if Refers(v, r) { ReferredBelow(v, r); }
    case Obj(fields) =>
      forall k | k in fields ensures r in InputRefs(fields[k]) <==> Refers(fields[k], r) { InputRefsExactly(fields[k], r); }
      if r in InputRefs(v) {
        var k :| k in fields && !IsPrivateKey(k) && r in InputRefs(fields[k]);
        assert [Member(k)][1..] == [];
        StepRefers(v, Member(k), fields[k], r);
      }
      if Refers(v, r) { ReferredBelow(v, r); }
    case Arr(items) =>
      forall i | 0 <= i < |items| ensures r in InputRefs(items[i]) <==> Refers(items[i], r) { InputRefsExactly(items[i], r); }
      if r in InputRefs(v) {
        var i :| 0 <= i < |items| && r in InputRefs(items[i]);
        assert [Item(i)][1..] == [];
        StepRefers(v, Item(i), items[i], r);
      }
      if Refers(v, r) { ReferredBelow(v, r); }
    case _ =>
      if Refers(v, r) { ReferredBelow(v, r); }
  }

  /** What counts as a reference, and how a context reference is spelled. */
  lemma ReferencesRead(s: string, rest: string)
    ensures IsReference(s) <==>
      exists p | p in ["artifact://", "snapshot://", "context://", "contract://", "decision://", "baseline://"] :: p <= s
    ensures RefValue("context://" + rest) == "snapshot://" + rest
    ensures !("context://" <= s) ==> RefValue(s) == s
  {
    var prefixes := ["artifact://", "snapshot://", "context://", "contract://", "decision://", "baseline://"];
    assert prefixes[0] in prefixes && prefixes[1] in prefixes && prefixes[2] in prefixes;
    assert prefixes[3] in prefixes && prefixes[4] in prefixes && prefixes[5] in prefixes;
    assert ("context://" + rest)[10..] == rest;
  }

  /* --------------------------------------------------------------------- mentions */

  /** Some text outside the internal metadata is the marker or one of its revisions. */
  ghost predicate Mentions(v: Json, marker: string) {
    exists path, s {:trigger AtPath(v, path), MatchesMarker(s, marker)} ::
      && AtPath(v, path) == Some(Text(s)) && MatchesMarker(s, marker) && (s == marker || marker + "@" <= s)
      && forall i | 0 <= i < |path| :: path[i] != Member(INTERNAL_META_KEY)
  }

  lemma MentionedBelow(v: Json, marker: string)
    requires Mentions(v, marker)
    ensures match v
      case Text(s) => s == marker || marker + "@" <= s
      case Obj(fields) => exists k | k in fields :: k != INTERNAL_META_KEY && Mentions(fields[k], marker)
      case Arr(items) => exists i | 0 <= i < |items| :: Mentions(items[i], marker)
      case _ => false
  {
    var path, s {:trigger AtPath(v, path), MatchesMarker(s, marker)} :|
      && AtPath(v, path) == Some(Text(s)) && MatchesMarker(s, marker) && (s == marker || marker + "@" <= s)
      && forall i | 0 <= i < |path| :: path[i] != Member(INTERNAL_META_KEY);
    if path != [] {
      assert MatchesMarker(s, marker);
      assert forall i | 0 <= i < |path[1..]| :: path[1..][i] == path[i + 1];
      match path[0]
      case Member(k) => assert AtPath(v.fields[k], path[1..]) == Some(Text(s));
      case Item(i) => assert AtPath(v.items[i], path[1..]) == Some(Text(s));
    }
  }

  lemma StepMentions(v: Json, move: Move, inner: Json, marker: string)
    requires AtPath(v, [move]) == Some(inner) && Mentions(inner, marker) && move != Member(INTERNAL_META_KEY)
    ensures Mentions(v, marker)
  {
    var path, s {:trigger AtPath(inner, path), MatchesMarker(s, marker)} :|
      && AtPath(inner, path) == Some(Text(s)) && MatchesMarker(s, marker) && (s == marker || marker + "@" <= s)
      && forall i | 0 <= i < |path| :: path[i] != Member(INTERNAL_META_KEY);
    var longer := [move] + path;
    assert longer[1..] == path && [move][1..] == [];
    assert AtPath(v, longer) == Some(Text(s)) && MatchesMarker(s, marker);
  }

  /** The structured search finds exactly the mentions. */
  lemma {:induction false} ContainsExactExactly(v: Json, marker: string)
    ensures ContainsExact(v, marker) <==> Mentions(v, marker)
  {
    match v
    case Text(s) =>
      if MatchesMarker(s, marker) { assert AtPath(v, []) == Some(Text(s)); }
      if Mentions(v, marker) { MentionedBelow(v, marker); }
    case Obj(fields) =>
      forall k | k in fields ensures ContainsExact(fields[k], marker) <==> Mentions(fields[k], marker) {
        ContainsExactExactly(fields[k], marker);
      }
      if ContainsExact(v, marker) {
        var k :| k in fields && k != INTERNAL_META_KEY && ContainsExact(fields[k], marker);
        assert [Member(k)][1..] == [];
        StepMentions(v, Member(k), fields[k], marker);
      }
      if Mentions(v, marker) { MentionedBelow(v, marker); }
    case Arr(items) =>
      forall i | 0 <= i < |items| ensures ContainsExact(items[i], marker) <==> Mentions(items[i], marker) {
        ContainsExactExactly(items[i], marker);
      }
      if ContainsExact(v, marker) {
        var i :| 0 <= i < |items| && ContainsExact(items[i], marker);
        assert [Item(i)][1..] == [];
        StepMentions(v, Item(i), items[i], marker);
      }
      if Mentions(v, marker) { MentionedBelow(v, marker); }
    case _ =>
      if Mentions(v, marker) { MentionedBelow(v, marker); }
  }
}
