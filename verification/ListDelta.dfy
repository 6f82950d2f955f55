/** Keyed edits of a list of JSON items: removals leave gaps that are closed, changes overwrite or
    append, additions append. */
module ListDelta {
  import opened Common
  import opened Json

  /** How a value that is not text is written as text. */
  type Show = Json -> string

  datatype ItemKey = Named(field: string, text: string) | Whole(value: Json)

  const KEY_FIELDS: seq<string> := ["name", "id", "ref", "task_ref", "path"]

  function TextOfValue(value: Json, show: Show): string {
    if value.Text? then value.text else show(value)
  }

  function FirstKey(fields: Fields, candidates: seq<string>, show: Show): Option<ItemKey> {
    if candidates == [] then None
    else if candidates[0] in fields then Some(Named(candidates[0], TextOfValue(fields[candidates[0]], show)))
    else FirstKey(fields, candidates[1..], show)
  }

  type Naming = Json -> ItemKey

  /** An object is known by the first of its naming fields, anything else by its whole value. */
  function KeyOf(value: Json, show: Show): ItemKey {
    if value.Obj? && FirstKey(value.fields, KEY_FIELDS, show).Some?
    then FirstKey(value.fields, KEY_FIELDS, show).value
    else Whole(value)
  }

  function NamingBy(show: Show): Naming {
    value => KeyOf(value, show)
  }

  /** The naming gives null a name no other value has. */
  ghost predicate TellsNull(keyOf: Naming) {
    keyOf(Null) == Whole(Null) && forall value :: keyOf(value) == Whole(Null) ==> value.Null?
  }

  lemma NamingTellsNull(show: Show)
    ensures TellsNull(NamingBy(show))
  {
    forall value | KeyOf(value, show) == Whole(Null) ensures value.Null? {
      if value.Obj? { FirstKeyIsNamed(value.fields, KEY_FIELDS, show); }
    }
  }

  lemma {:induction false} FirstKeyIsNamed(fields: Fields, candidates: seq<string>, show: Show)
    ensures var key := FirstKey(fields, candidates, show); key.Some? ==> key.value.Named?
  {
    if candidates != [] && candidates[0] !in fields { FirstKeyIsNamed(fields, candidates[1..], show); }
  }

  datatype DeltaSet = DeltaSet(add: seq<Json>, remove: seq<Json>, change: seq<Json>)

  datatype ListError = RemovesAbsent(key: ItemKey) | AddsDuplicate(key: ItemKey)

  /* ---------------------------------------------------------------- reading */

  function Keys(items: seq<Json>, keyOf: Naming): (keys: seq<ItemKey>)
    ensures |keys| == |items|
  {
    seq(|items|, i requires 0 <= i < |items| => keyOf(items[i]))
  }

  predicate Distinct<T(==)>(s: seq<T>) {
    forall i, j | 0 <= i < j < |s| :: s[i] != s[j]
  }

  lemma HeadAndTail<T>(head: T, tail: seq<T>)
    ensures Distinct([head] + tail) <==> head !in tail && Distinct(tail)
  {
    var s := [head] + tail;
    if Distinct(s) {
      forall i, j | 0 <= i < j < |tail| ensures tail[i] != tail[j] { assert s[i + 1] != s[j + 1]; }
      forall j | 0 <= j < |tail| ensures tail[j] != head { assert s[0] != s[j + 1]; }
    }
  }

  lemma InitAndLast<T>(init: seq<T>, last: T)
    ensures Distinct(init + [last]) <==> last !in init && Distinct(init)
  {
    var s := init + [last];
    if Distinct(s) {
      forall i, j | 0 <= i < j < |init| ensures init[i] != init[j] { assert s[i] != s[j]; }
      forall i | 0 <= i < |init| ensures init[i] != last { assert s[i] != s[|init|]; }
    }
  }

  /** The list read as a map from key to item; a later item hides an earlier one of the same key. */
  function AsMap(items: seq<Json>, keyOf: Naming): map<ItemKey, Json> {
    if items == [] then map[]
    else
      var last := items[|items| - 1];
      AsMap(items[..|items| - 1], keyOf)[keyOf(last) := last]
  }

  lemma {:induction false} MapKeys(items: seq<Json>, keyOf: Naming)
    ensures AsMap(items, keyOf).Keys == Members(Keys(items, keyOf))
  {
    if items != [] {
      var init, last := items[..|items| - 1], items[|items| - 1];
      MapKeys(init, keyOf);
      assert Keys(items, keyOf) == Keys(init, keyOf) + [keyOf(last)];
    }
  }

  /** Where the last item of each key stands. */
  function Index(items: seq<Json>, keyOf: Naming): (index: map<ItemKey, nat>)
    ensures forall k | k in index :: index[k] < |items|
  {
    if items == [] then map[] else Index(items[..|items| - 1], keyOf)[keyOf(items[|items| - 1]) := |items| - 1]
  }

  ghost predicate PointsTo(items: seq<Json>, index: map<ItemKey, nat>, key: ItemKey, keyOf: Naming) {
    key in index && index[key] < |items| && keyOf(items[index[key]]) == key
  }

  lemma {:induction false} IndexIsExact(items: seq<Json>, keyOf: Naming)
    ensures Index(items, keyOf).Keys == Members(Keys(items, keyOf))
    ensures forall k | k in Index(items, keyOf) :: PointsTo(items, Index(items, keyOf), k, keyOf)
  {
    if items != [] {
      var init, last := items[..|items| - 1], items[|items| - 1];
      IndexIsExact(init, keyOf);
      assert Keys(items, keyOf) == Keys(init, keyOf) + [keyOf(last)];
      forall k | k in Index(items, keyOf) ensures PointsTo(items, Index(items, keyOf), k, keyOf) {
        if k != keyOf(last) { assert PointsTo(init, Index(init, keyOf), k, keyOf); }
      }
    }
  }

  lemma MembersOfAppended<T>(s: seq<T>, x: T)
    ensures Members(s + [x]) == Members(s) + {x}
  {
  }

  /** The items that are not null, in order. */
  function Live(items: seq<Json>): seq<Json> {
    if items == [] then []
    else if items[|items| - 1].Null? then Live(items[..|items| - 1])
    else Live(items[..|items| - 1]) + [items[|items| - 1]]
  }

  /* --------------------------------------------------------- one delta, stepwise */

  /** Blank out the item of each removed key; a key that is not, or no longer, indexed is an error. */
  function RemoveAll(items: seq<Json>, index: map<ItemKey, nat>, remove: seq<Json>, keyOf: Naming): (r: Result<seq<Json>, ListError>)
    requires forall k | k in index :: index[k] < |items|
    ensures r.Success? ==> |r.value| == |items|
    decreases |remove|
  {
    if remove == [] then Success(items)
    else
      var key := keyOf(remove[0]);
      if key !in index then Failure(RemovesAbsent(key))
      else RemoveAll(items[index[key] := Null], index - {key}, remove[1..], keyOf)
  }

  function ChangeOne(items: seq<Json>, item: Json, keyOf: Naming): seq<Json> {
    var key := keyOf(item);
    if key in Index(items, keyOf) then items[Index(items, keyOf)[key] := item] else items + [item]
  }

  function ChangeAll(items: seq<Json>, change: seq<Json>, keyOf: Naming): seq<Json>
    decreases |change|
  {
    if change == [] then items else ChangeAll(ChangeOne(items, change[0], keyOf), change[1..], keyOf)
  }

  function AddAll(items: seq<Json>, add: seq<Json>, keyOf: Naming): Result<seq<Json>, ListError>
    decreases |add|
  {
    if add == [] then Success(items)
    else if keyOf(add[0]) in Keys(items, keyOf) then Failure(AddsDuplicate(keyOf(add[0])))
    else AddAll(items + [add[0]], add[1..], keyOf)
  }

  function Applied(current: seq<Json>, delta: DeltaSet, keyOf: Naming): Result<seq<Json>, ListError> {
    var cleared := RemoveAll(current, Index(current, keyOf), delta.remove, keyOf);
    if cleared.Failure? then cleared else AddAll(ChangeAll(Live(cleared.value), delta.change, keyOf), delta.add, keyOf)
  }

  /* ------------------------------------------------------------------ removals */

  /** What is left of the list: the items whose key is not removed, in their order. */
  function Survivors(items: seq<Json>, removed: set<ItemKey>, keyOf: Naming): seq<Json> {
    if items == [] then []
    else
      var last := items[|items| - 1];
      var before := Survivors(items[..|items| - 1], removed, keyOf);
      if last.Null? || keyOf(last) in removed then before else before + [last]
  }

  /** The list with every item of a removed key blanked out. */
  function Blanked(items: seq<Json>, removed: set<ItemKey>, keyOf: Naming): seq<Json> {
    seq(|items|, i requires 0 <= i < |items| => if keyOf(items[i]) in removed then Null else items[i])
  }

  lemma {:induction false} LiveBlankedSurvive(items: seq<Json>, removed: set<ItemKey>, keyOf: Naming)
    ensures Live(Blanked(items, removed, keyOf)) == Survivors(items, removed, keyOf)
  {
    if items != [] {
      var init := items[..|items| - 1];
      LiveBlankedSurvive(init, removed, keyOf);
      assert Blanked(items, removed, keyOf)[..|items| - 1] == Blanked(init, removed, keyOf);
    }
  }

  /** Part-way through the removals: what is gone is blanked, what is not gone is still indexed. */
  ghost predicate Clearing(items: seq<Json>, gone: set<ItemKey>, now: seq<Json>, index: map<ItemKey, nat>, keyOf: Naming) {
    && now == Blanked(items, gone, keyOf)
    && (forall k | k in index :: PointsTo(items, index, k, keyOf))
  }

  lemma ClearOne(items: seq<Json>, gone: set<ItemKey>, now: seq<Json>, index: map<ItemKey, nat>, key: ItemKey, keyOf: Naming)
    requires Distinct(Keys(items, keyOf)) && Clearing(items, gone, now, index, keyOf) && key in index
    ensures Clearing(items, gone + {key}, now[index[key] := Null], index - {key}, keyOf)
  {
    assert PointsTo(items, index, key, keyOf);
    var after := now[index[key] := Null];
    forall i | 0 <= i < |items| ensures after[i] == Blanked(items, gone + {key}, keyOf)[i] {
      assert Keys(items, keyOf)[i] == keyOf(items[i]);
      assert Keys(items, keyOf)[index[key]] == key;
    }
    assert after == Blanked(items, gone + {key}, keyOf);
    forall k | k in index - {key} ensures PointsTo(items, index - {key}, k, keyOf) {
      assert PointsTo(items, index, k, keyOf);
    }
  }

  /** On a list of distinct keys a removal succeeds exactly when it names present keys, each once. */
  ghost predicate Removable(present: set<ItemKey>, remove: seq<Json>, keyOf: Naming) {
    Distinct(Keys(remove, keyOf)) && Members(Keys(remove, keyOf)) <= present
  }

  lemma RemovableStep(present: set<ItemKey>, remove: seq<Json>, keyOf: Naming)
    requires remove != []
    ensures var key := keyOf(remove[0]);
      Removable(present, remove, keyOf) <==> key in present && Removable(present - {key}, remove[1..], keyOf)
    ensures Members(Keys(remove, keyOf)) == {keyOf(remove[0])} + Members(Keys(remove[1..], keyOf))
  {
    var key := keyOf(remove[0]);
    assert Keys(remove, keyOf) == [key] + Keys(remove[1..], keyOf);
    HeadAndTail(key, Keys(remove[1..], keyOf));
    assert key in Keys(remove[1..], keyOf) <==> key in Members(Keys(remove[1..], keyOf));
    assert Members(Keys(remove, keyOf)) == {key} + Members(Keys(remove[1..], keyOf));
  }

  lemma {:induction false} RemovalClears(items: seq<Json>, gone: set<ItemKey>, now: seq<Json>, index: map<ItemKey, nat>,
                                         remove: seq<Json>, keyOf: Naming)
    requires Distinct(Keys(items, keyOf)) && Clearing(items, gone, now, index, keyOf)
    ensures var r := RemoveAll(now, index, remove, keyOf);
      && (r.Success? <==> Removable(index.Keys, remove, keyOf))
      && (r.Success? ==> r.value == Blanked(items, gone + Members(Keys(remove, keyOf)), keyOf))
    decreases |remove|
  {
    if remove == [] {
      assert gone + Members(Keys(remove, keyOf)) == gone;
    } else {
      var key := keyOf(remove[0]);
      RemovableStep(index.Keys, remove, keyOf);
      if key in index {
        ClearOne(items, gone, now, index, key, keyOf);
        RemovalClears(items, gone + {key}, now[index[key] := Null], index - {key}, remove[1..], keyOf);
        assert (index - {key}).Keys == index.Keys - {key};
        assert gone + {key} + Members(Keys(remove[1..], keyOf)) == gone + Members(Keys(remove, keyOf));
      }
    }
  }

  lemma {:induction false} SurvivorsAreDistinct(items: seq<Json>, removed: set<ItemKey>, keyOf: Naming)
    requires Distinct(Keys(items, keyOf))
    ensures Distinct(Keys(Survivors(items, removed, keyOf), keyOf))
    ensures Members(Keys(Survivors(items, removed, keyOf), keyOf)) <= Members(Keys(items, keyOf))
  {
    if items != [] {
      var init, last := items[..|items| - 1], items[|items| - 1];
      var before := Survivors(init, removed, keyOf);
      assert Keys(items, keyOf) == Keys(init, keyOf) + [keyOf(last)];
      InitAndLast(Keys(init, keyOf), keyOf(last));
      SurvivorsAreDistinct(init, removed, keyOf);
      KeysOfAppended(before, last, keyOf);
      InitAndLast(Keys(before, keyOf), keyOf(last));
      MembersOfAppended(Keys(init, keyOf), keyOf(last));
      MembersOfAppended(Keys(before, keyOf), keyOf(last));
      assert keyOf(last) in Keys(before, keyOf) ==> keyOf(last) in Members(Keys(before, keyOf));
    }
  }

  lemma UpdateThenDrop<K, V>(m: map<K, V>, k: K, v: V, gone: set<K>)
    ensures m[k := v] - gone == if k in gone then m - gone else (m - gone)[k := v]
  {
  }

  lemma {:induction false} SurvivorsAsMap(items: seq<Json>, removed: set<ItemKey>, keyOf: Naming)
    requires TellsNull(keyOf)
    ensures AsMap(Survivors(items, removed, keyOf), keyOf) == AsMap(items, keyOf) - (removed + {Whole(Null)})
  {
    if items != [] {
      var init, last := items[..|items| - 1], items[|items| - 1];
      SurvivorsAsMap(init, removed, keyOf);
      MapOfAppended(Survivors(init, removed, keyOf), last, keyOf);
      UpdateThenDrop(AsMap(init, keyOf), keyOf(last), last, removed + {Whole(Null)});
      assert keyOf(last) == Whole(Null) <==> last.Null?;
    }
  }

  /* ------------------------------------------------------------------- changes */

  lemma {:induction false} OverwriteKeepsIndex(items: seq<Json>, i: nat, item: Json, keyOf: Naming)
    requires i < |items| && keyOf(items[i]) == keyOf(item)
    ensures Keys(items[i := item], keyOf) == Keys(items, keyOf)
    ensures Index(items[i := item], keyOf) == Index(items, keyOf)
    decreases |items|
  {
    assert Keys(items[i := item], keyOf) == Keys(items, keyOf);
    var n := |items| - 1;
    if i < n {
      OverwriteKeepsIndex(items[..n], i, item, keyOf);
      assert items[i := item][..n] == items[..n][i := item];
    } else {
      assert items[i := item][..n] == items[..n];
    }
  }

  /** The index points at the last item of a key. */
  lemma {:induction false} IndexedIsLast(items: seq<Json>, key: ItemKey, keyOf: Naming)
    requires key in Index(items, keyOf)
    ensures forall j | Index(items, keyOf)[key] < j < |items| :: keyOf(items[j]) != key
  {
    var n := |items| - 1;
    if keyOf(items[n]) != key {
      IndexedIsLast(items[..n], key, keyOf);
      forall j | Index(items, keyOf)[key] < j < |items| ensures keyOf(items[j]) != key {
        assert j < n ==> items[..n][j] == items[j];
      }
    }
  }

  lemma {:induction false} OverwritingLast(items: seq<Json>, i: nat, item: Json, keyOf: Naming)
    requires i < |items| && keyOf(items[i]) == keyOf(item)
    requires forall j | i < j < |items| :: keyOf(items[j]) != keyOf(item)
    ensures AsMap(items[i := item], keyOf) == AsMap(items, keyOf)[keyOf(item) := item]
  {
    var n := |items| - 1;
    if i == n {
      assert items[i := item][..n] == items[..n];
    } else {
      OverwritingLast(items[..n], i, item, keyOf);
      assert items[i := item][..n] == items[..n][i := item];
    }
  }

  lemma KeysOfAppended(items: seq<Json>, item: Json, keyOf: Naming)
    ensures Keys(items + [item], keyOf) == Keys(items, keyOf) + [keyOf(item)]
  {
  }

  lemma MapOfAppended(items: seq<Json>, item: Json, keyOf: Naming)
    ensures AsMap(items + [item], keyOf) == AsMap(items, keyOf)[keyOf(item) := item]
  {
    assert (items + [item])[..|items|] == items;
  }

  lemma IndexOfAppended(items: seq<Json>, item: Json, keyOf: Naming)
    ensures Index(items + [item], keyOf) == Index(items, keyOf)[keyOf(item) := |items|]
  {
    assert (items + [item])[..|items|] == items;
  }

  /** A change overwrites the item of its key where it stands, or appends it. */
  lemma ChangeOneLaw(items: seq<Json>, item: Json, keyOf: Naming)
    ensures var after := ChangeOne(items, item, keyOf);
      var key := keyOf(item);
      && AsMap(after, keyOf) == AsMap(items, keyOf)[key := item]
      && Keys(after, keyOf) == Keys(items, keyOf) + (if key in Keys(items, keyOf) then [] else [key])
      && (Distinct(Keys(items, keyOf)) ==> Distinct(Keys(after, keyOf)))
  {
    IndexIsExact(items, keyOf);
    assert keyOf(item) in Keys(items, keyOf) <==> keyOf(item) in Members(Keys(items, keyOf));
    if keyOf(item) in Index(items, keyOf) {
      assert PointsTo(items, Index(items, keyOf), keyOf(item), keyOf);
      OverwriteKeepsIndex(items, Index(items, keyOf)[keyOf(item)], item, keyOf);
      IndexedIsLast(items, keyOf(item), keyOf);
      OverwritingLast(items, Index(items, keyOf)[keyOf(item)], item, keyOf);
    } else {
      KeysOfAppended(items, item, keyOf);
      MapOfAppended(items, item, keyOf);
    }
  }

  /** The keys of the changes that are new to the list, in the order they first come. */
  function NewKeys(known: seq<ItemKey>, change: seq<Json>, keyOf: Naming): seq<ItemKey>
    decreases |change|
  {
    if change == [] then []
    else
      var key := keyOf(change[0]);
      if key in known then NewKeys(known, change[1..], keyOf) else [key] + NewKeys(known + [key], change[1..], keyOf)
  }

  lemma FirstThenRest(change: seq<Json>, m: map<ItemKey, Json>, keyOf: Naming)
    requires change != []
    ensures m[keyOf(change[0]) := change[0]] + AsMap(change[1..], keyOf) == m + AsMap(change, keyOf)
  {
    FirstIsHidden(change, keyOf);
  }

  lemma {:induction false} FirstIsHidden(change: seq<Json>, keyOf: Naming)
    requires change != []
    ensures AsMap(change, keyOf) == map[keyOf(change[0]) := change[0]] + AsMap(change[1..], keyOf)
  {
    var n := |change| - 1;
    if n > 0 {
      FirstIsHidden(change[..n], keyOf);
      assert change[..n][1..] == change[1..][..n - 1];
    }
  }

  /** All changes together overwrite the map. */
  lemma {:induction false} ChangesOverwrite(items: seq<Json>, change: seq<Json>, keyOf: Naming)
    ensures AsMap(ChangeAll(items, change, keyOf), keyOf) == AsMap(items, keyOf) + AsMap(change, keyOf)
    decreases |change|
  {
    if change != [] {
      ChangeOneLaw(items, change[0], keyOf);
      ChangesOverwrite(ChangeOne(items, change[0], keyOf), change[1..], keyOf);
      FirstThenRest(change, AsMap(items, keyOf), keyOf);
    }
  }

  /** Known keys stay where they are, new keys go last. */
  lemma {:induction false} ChangesKeepOrder(items: seq<Json>, change: seq<Json>, keyOf: Naming)
    ensures Keys(ChangeAll(items, change, keyOf), keyOf) == Keys(items, keyOf) + NewKeys(Keys(items, keyOf), change, keyOf)
    decreases |change|
  {
    if change != [] {
      var key, known := keyOf(change[0]), Keys(items, keyOf);
      var next := ChangeOne(items, change[0], keyOf);
      ChangeOneLaw(items, change[0], keyOf);
      ChangesKeepOrder(next, change[1..], keyOf);
      assert ChangeAll(items, change, keyOf) == ChangeAll(next, change[1..], keyOf);
      if key in known {
        assert Keys(next, keyOf) == known;
        assert NewKeys(known, change, keyOf) == NewKeys(known, change[1..], keyOf);
      } else {
        assert Keys(next, keyOf) == known + [key];
        assert NewKeys(known, change, keyOf) == [key] + NewKeys(known + [key], change[1..], keyOf);
        var rest := NewKeys(known + [key], change[1..], keyOf);
        assert known + [key] + rest == known + ([key] + rest);
      }
    }
  }

  lemma {:induction false} NewKeysAreNew(known: seq<ItemKey>, change: seq<Json>, keyOf: Naming)
    requires Distinct(known)
    ensures Distinct(known + NewKeys(known, change, keyOf))
    decreases |change|
  {
    if change == [] {
      assert known + [] == known;
    } else {
      var key := keyOf(change[0]);
      if key in known {
        NewKeysAreNew(known, change[1..], keyOf);
      } else {
        InitAndLast(known, key);
        NewKeysAreNew(known + [key], change[1..], keyOf);
        var rest := NewKeys(known + [key], change[1..], keyOf);
        assert known + [key] + rest == known + ([key] + rest);
      }
    }
  }

  /* ----------------------------------------------------------------- additions */

  ghost predicate Addable(known: set<ItemKey>, add: seq<Json>, keyOf: Naming) {
    Distinct(Keys(add, keyOf)) && Members(Keys(add, keyOf)) !! known
  }

  lemma AddableStep(known: set<ItemKey>, add: seq<Json>, keyOf: Naming)
    requires add != []
    ensures var key := keyOf(add[0]);
      Addable(known, add, keyOf) <==> key !in known && Addable(known + {key}, add[1..], keyOf)
  {
    var key := keyOf(add[0]);
    assert Keys(add, keyOf) == [key] + Keys(add[1..], keyOf);
    HeadAndTail(key, Keys(add[1..], keyOf));
    assert Members(Keys(add, keyOf)) == {key} + Members(Keys(add[1..], keyOf));
  }

  /** Additions succeed exactly when they name new keys, each once, and then append the items. */
  lemma {:induction false} AddAllLaw(items: seq<Json>, add: seq<Json>, keyOf: Naming)
    ensures var r := AddAll(items, add, keyOf);
      && (r.Success? <==> Addable(Members(Keys(items, keyOf)), add, keyOf))
      && (r.Success? ==> r.value == items + add)
    decreases |add|
  {
    if add != [] {
      AddableStep(Members(Keys(items, keyOf)), add, keyOf);
      KeysOfAppended(items, add[0], keyOf);
      assert Members(Keys(items + [add[0]], keyOf)) == Members(Keys(items, keyOf)) + {keyOf(add[0])};
      AddAllLaw(items + [add[0]], add[1..], keyOf);
      assert items + [add[0]] + add[1..] == items + add;
    }
  }

  lemma {:induction false} MapOfConcatenation(items: seq<Json>, add: seq<Json>, keyOf: Naming)
    ensures AsMap(items + add, keyOf) == AsMap(items, keyOf) + AsMap(add, keyOf)
    decreases |add|
  {
    if add == [] {
      assert items + add == items;
    } else {
      var n := |add| - 1;
      MapOfConcatenation(items, add[..n], keyOf);
      assert items + add == items + add[..n] + [add[n]];
      MapOfAppended(items + add[..n], add[n], keyOf);
    }
  }

  lemma DistinctUnion(a: seq<ItemKey>, b: seq<ItemKey>)
    requires Distinct(a) && Distinct(b) && Members(a) !! Members(b)
    ensures Distinct(a + b)
  {
    forall i, j | 0 <= i < j < |a + b| ensures (a + b)[i] != (a + b)[j] {
      if i < |a| <= j {
        assert a[i] in Members(a) && b[j - |a|] in Members(b);
      }
    }
  }

  /* ------------------------------------------------------------- the whole delta */

  /** What of the list is known by the time the additions come. */
  ghost function KnownKeys(current: seq<Json>, delta: DeltaSet, keyOf: Naming): set<ItemKey> {
    Members(Keys(current, keyOf)) - (Members(Keys(delta.remove, keyOf)) + {Whole(Null)}) + Members(Keys(delta.change, keyOf))
  }

  /** On a list of distinct keys a delta applies exactly when its removals name present keys, each once,
      and its additions keys that are absent by then, each once. */
  lemma AppliesExactly(current: seq<Json>, delta: DeltaSet, keyOf: Naming)
    requires TellsNull(keyOf) && Distinct(Keys(current, keyOf))
    ensures Applied(current, delta, keyOf).Success? <==>
      && Removable(Members(Keys(current, keyOf)), delta.remove, keyOf)
      && Addable(KnownKeys(current, delta, keyOf), delta.add, keyOf)
  {
    AppliedIs(current, delta, keyOf);
    if Removable(Members(Keys(current, keyOf)), delta.remove, keyOf) {
      AddAllLaw(ChangeAll(Survivors(current, Members(Keys(delta.remove, keyOf)), keyOf), delta.change, keyOf), delta.add, keyOf);
      KnownAfterChanges(current, delta, keyOf);
    }
  }

  lemma KnownAfterChanges(current: seq<Json>, delta: DeltaSet, keyOf: Naming)
    requires TellsNull(keyOf) && Distinct(Keys(current, keyOf))
    ensures Members(Keys(ChangeAll(Survivors(current, Members(Keys(delta.remove, keyOf)), keyOf), delta.change, keyOf), keyOf))
      == KnownKeys(current, delta, keyOf)
  {
    var removed := Members(Keys(delta.remove, keyOf));
    var kept := Survivors(current, removed, keyOf);
    SurvivorsAsMap(current, removed, keyOf);
    ChangesOverwrite(kept, delta.change, keyOf);
    MapKeys(ChangeAll(kept, delta.change, keyOf), keyOf);
    MapKeys(current, keyOf);
    MapKeys(delta.change, keyOf);
  }

  lemma AppliedIs(current: seq<Json>, delta: DeltaSet, keyOf: Naming)
    requires Distinct(Keys(current, keyOf))
    ensures var removed := Members(Keys(delta.remove, keyOf));
      if Removable(Members(Keys(current, keyOf)), delta.remove, keyOf)
      then Applied(current, delta, keyOf) == AddAll(ChangeAll(Survivors(current, removed, keyOf), delta.change, keyOf), delta.add, keyOf)
      else Applied(current, delta, keyOf).Failure?
  {
    var removed := Members(Keys(delta.remove, keyOf));
    var index := Index(current, keyOf);
    assert Blanked(current, {}, keyOf) == current;
    IndexIsExact(current, keyOf);
    RemovalClears(current, {}, current, index, delta.remove, keyOf);
    assert index.Keys == Members(Keys(current, keyOf));
    assert {} + removed == removed;
    LiveBlankedSurvive(current, removed, keyOf);
  }

  /** Read as a map, an applied delta leaves the list without the removed keys, overwritten by the
      changes, extended by the additions. */
  lemma AppliedIsMapUpdate(current: seq<Json>, delta: DeltaSet, keyOf: Naming)
    requires TellsNull(keyOf) && Distinct(Keys(current, keyOf)) && Applied(current, delta, keyOf).Success?
    ensures AsMap(Applied(current, delta, keyOf).value, keyOf)
      == AsMap(current, keyOf) - (Members(Keys(delta.remove, keyOf)) + {Whole(Null)})
         + AsMap(delta.change, keyOf) + AsMap(delta.add, keyOf)
  {
    var removed := Members(Keys(delta.remove, keyOf));
    var kept := Survivors(current, removed, keyOf);
    AppliedIs(current, delta, keyOf);
    SurvivorsAsMap(current, removed, keyOf);
    ChangesOverwrite(kept, delta.change, keyOf);
    AddAllLaw(ChangeAll(kept, delta.change, keyOf), delta.add, keyOf);
    MapOfConcatenation(ChangeAll(kept, delta.change, keyOf), delta.add, keyOf);
  }

  /** Read in order, it leaves the surviving keys as they stood, then the new keys of the changes, then
      the additions; and no key twice. */
  lemma AppliedKeepsOrder(current: seq<Json>, delta: DeltaSet, keyOf: Naming)
    requires Distinct(Keys(current, keyOf)) && Applied(current, delta, keyOf).Success?
    ensures var after := Keys(Applied(current, delta, keyOf).value, keyOf);
      var kept := Keys(Survivors(current, Members(Keys(delta.remove, keyOf)), keyOf), keyOf);
      after == kept + NewKeys(kept, delta.change, keyOf) + Keys(delta.add, keyOf) && Distinct(after)
  {
    var removed := Members(Keys(delta.remove, keyOf));
    var kept := Survivors(current, removed, keyOf);
    var changed := ChangeAll(kept, delta.change, keyOf);
    AppliedIs(current, delta, keyOf);
    SurvivorsAreDistinct(current, removed, keyOf);
    ChangesKeepOrder(kept, delta.change, keyOf);
    NewKeysAreNew(Keys(kept, keyOf), delta.change, keyOf);
    AddAllLaw(changed, delta.add, keyOf);
    assert Keys(changed + delta.add, keyOf) == Keys(changed, keyOf) + Keys(delta.add, keyOf);
    DistinctUnion(Keys(changed, keyOf), Keys(delta.add, keyOf));
  }

  lemma {:induction false} LiveAreNotNull(items: seq<Json>, x: Json)
    ensures x in Live(items) <==> x in items && !x.Null?
  {
    if items != [] {
      LiveAreNotNull(items[..|items| - 1], x);
      assert items == items[..|items| - 1] + [items[|items| - 1]];
    }
  }

  /** A removal takes the last item of its key alone, so on any list its key is gone exactly when no
      other item has it. */
  lemma RemovalIsCompleteExactlyWhenUnrepeated(items: seq<Json>, item: Json, keyOf: Naming)
    requires TellsNull(keyOf) && !item.Null? && keyOf(item) in Index(items, keyOf)
    ensures var r := Applied(items, DeltaSet([], [item], []), keyOf);
      r.Success? && (keyOf(item) !in Keys(r.value, keyOf) <==>
        forall j | 0 <= j < |items| && j != Index(items, keyOf)[keyOf(item)] :: keyOf(items[j]) != keyOf(item))
  {
    var key, index := keyOf(item), Index(items, keyOf);
    var blanked := items[index[key] := Null];
    var after := Live(blanked);
    assert RemoveAll(blanked, index - {key}, [item][1..], keyOf) == Success(blanked);
    assert Applied(items, DeltaSet([], [item], []), keyOf) == Success(after);
    if key in Keys(after, keyOf) {
      var i :| 0 <= i < |after| && Keys(after, keyOf)[i] == key;
      LiveAreNotNull(blanked, after[i]);
      var j :| 0 <= j < |blanked| && blanked[j] == after[i];
      assert j != index[key] && keyOf(items[j]) == key;
    }
    forall j | 0 <= j < |items| && j != index[key] && keyOf(items[j]) == key ensures key in Keys(after, keyOf) {
      assert blanked[j] == items[j];
      LiveAreNotNull(blanked, items[j]);
      var i :| 0 <= i < |after| && after[i] == items[j];
      assert Keys(after, keyOf)[i] == key;
    }
  }

  /* ---------------------------------------------------------------- the method */

  method BuildIndex(items: seq<Json>, keyOf: Naming) returns (index: map<ItemKey, nat>)
    ensures index == Index(items, keyOf)
  {
    index := map[];
    var i := 0;
    while i < |items|
      invariant 0 <= i <= |items|
      invariant index == Index(items[..i], keyOf)
    {
      IndexOfAppended(items[..i], items[i], keyOf);
      assert items[..i] + [items[i]] == items[..i + 1];
      index := index[keyOf(items[i]) := i];
      i := i + 1;
    }
    assert items[..i] == items;
  }

  method DropNulls(items: seq<Json>) returns (live: seq<Json>)
    ensures live == Live(items)
  {
    live := [];
    var i := 0;
    while i < |items|
      invariant 0 <= i <= |items|
      invariant live == Live(items[..i])
    {
      assert items[..i + 1][..i] == items[..i];
      if !items[i].Null? { live := live + [items[i]]; }
      i := i + 1;
    }
    assert items[..i] == items;
  }

  method Remove(current: seq<Json>, remove: seq<Json>, keyOf: Naming) returns (r: Result<seq<Json>, ListError>)
    ensures r == RemoveAll(current, Index(current, keyOf), remove, keyOf)
  {
    var items := current;
    var index: map<ItemKey, nat> := BuildIndex(items, keyOf);
    var i := 0;
    while i < |remove|
      invariant 0 <= i <= |remove|
      invariant forall k | k in index :: 0 <= index[k] < |items|
      invariant RemoveAll(items, index, remove[i..], keyOf) == RemoveAll(current, Index(current, keyOf), remove, keyOf)
    {
      var key := keyOf(remove[i]);
      assert remove[i..][1..] == remove[i + 1..];
      if key !in index { return Failure(RemovesAbsent(key)); }
      items := items[index[key] := Null];
      index := index - {key};
      i := i + 1;
    }
    r := Success(items);
  }

  method Change(current: seq<Json>, change: seq<Json>, keyOf: Naming) returns (items: seq<Json>)
    ensures items == ChangeAll(current, change, keyOf)
  {
    items := current;
    var index: map<ItemKey, nat> := BuildIndex(items, keyOf);
    var i := 0;
    while i < |change|
      invariant 0 <= i <= |change|
      invariant index == Index(items, keyOf)
      invariant ChangeAll(items, change[i..], keyOf) == ChangeAll(current, change, keyOf)
    {
      var item := change[i];
      var key := keyOf(item);
      assert change[i..][1..] == change[i + 1..];
      IndexIsExact(items, keyOf);
      if key !in index {
        IndexOfAppended(items, item, keyOf);
        index := index[key := |items|];
        items := items + [item];
      } else {
        assert PointsTo(items, index, key, keyOf);
        OverwriteKeepsIndex(items, index[key], item, keyOf);
        items := items[index[key] := item];
      }
      i := i + 1;
    }
  }

  method Add(current: seq<Json>, add: seq<Json>, keyOf: Naming) returns (r: Result<seq<Json>, ListError>)
    ensures r == AddAll(current, add, keyOf)
  {
    var items := current;
    var index: map<ItemKey, nat> := BuildIndex(items, keyOf);
    var i := 0;
    while i < |add|
      invariant 0 <= i <= |add|
      invariant index == Index(items, keyOf)
      invariant AddAll(items, add[i..], keyOf) == AddAll(current, add, keyOf)
    {
      var key := keyOf(add[i]);
      assert add[i..][1..] == add[i + 1..];
      IndexIsExact(items, keyOf);
      assert key in index <==> key in Members(Keys(items, keyOf));
      if key in index { return Failure(AddsDuplicate(key)); }
      IndexOfAppended(items, add[i], keyOf);
      index := index[key := |items|];
      items := items + [add[i]];
      i := i + 1;
    }
    r := Success(items);
  }

  method ApplyListDelta(current: seq<Json>, delta: DeltaSet, keyOf: Naming) returns (r: Result<seq<Json>, ListError>)
    ensures r == Applied(current, delta, keyOf)
  {
    r := Remove(current, delta.remove, keyOf);
    if r.Failure? { return; }
    var live := DropNulls(r.value);
    var changed := Change(live, delta.change, keyOf);
    r := Add(changed, delta.add, keyOf);
  }

  /** Of two items of one name, removing the name leaves the first. */
  lemma RemovedNameStays(show: Show)
    ensures var item := Obj(map["name" := Text("api")]);
      var r := Applied([item, item], DeltaSet([], [item], []), NamingBy(show));
      r.Success? && KeyOf(item, show) in Keys(r.value, NamingBy(show))
  {
    var item, keyOf := Obj(map["name" := Text("api")]), NamingBy(show);
    var items := [item, item];
    NamingTellsNull(show);
    IndexIsExact(items, keyOf);
    assert keyOf(items[0]) == keyOf(items[1]) == keyOf(item);
    RemovalIsCompleteExactlyWhenUnrepeated(items, item, keyOf);
  }
}
