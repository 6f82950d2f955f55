/** What the edits of a contract delta do to ownership, key by key, and to the revision, field by field. */
module ContractEdits {
  import opened Common
  import opened Json
  import opened ListDelta
  import opened ContractRevisions

  ghost predicate IsTextOf(value: Json, text: string, show: Show) {
    match value
    case Text(t) => text == t
    case _ => text == show(value)
  }

  /* -------------------------------------------------------------------- naming */

  /** An object is known by the first of five members it has, as text; anything else is known as a whole. */
  lemma NamedExactly(value: Json, key: ItemKey, show: Show)
    ensures var fields := ["name", "id", "ref", "task_ref", "path"];
      KeyOf(value, show) == key <==>
        if value.Obj? && exists i :: 0 <= i < 5 && fields[i] in value.fields then
          exists i :: 0 <= i < 5 && fields[i] in value.fields && (forall j | 0 <= j < i :: fields[j] !in value.fields)
            && key.Named? && key.field == fields[i] && IsTextOf(value.fields[fields[i]], key.text, show)
        else key == Whole(value)
  {
    if value.Obj? { FirstKeyExactly(value.fields, KEY_FIELDS, show); }
  }

  lemma {:induction false} FirstKeyExactly(fields: Fields, candidates: seq<string>, show: Show)
    ensures var key := FirstKey(fields, candidates, show);
      && (key.None? <==> forall i | 0 <= i < |candidates| :: candidates[i] !in fields)
      && (key.Some? ==>
            && key.value.Named?
            && exists i :: IsFirst(fields, candidates, i) && key.value.field == candidates[i]
                 && IsTextOf(fields[candidates[i]], key.value.text, show))
  {
    if candidates != [] {
      if candidates[0] in fields {
        assert IsFirst(fields, candidates, 0);
      } else {
        var rest := candidates[1..];
        FirstKeyExactly(fields, rest, show);
        assert forall i | 1 <= i < |candidates| :: candidates[i] == rest[i - 1];
        var key := FirstKey(fields, rest, show);
        if key.Some? {
          var i :| IsFirst(fields, rest, i) && key.value.field == rest[i] && IsTextOf(fields[rest[i]], key.value.text, show);
          assert IsFirst(fields, candidates, i + 1) && candidates[i + 1] == rest[i];
        }
      }
    }
  }

  ghost predicate IsFirst(fields: Fields, candidates: seq<string>, i: int) {
    0 <= i < |candidates| && candidates[i] in fields && forall j | 0 <= j < i :: candidates[j] !in fields
  }

  /* ----------------------------------------------------------------- ownership */

  /** The item writes the value under the key: as its named value, or as a member of its own, unless that
      only describes the item and there are others. */
  ghost predicate Puts(item: Json, k: string, v: Json, show: Show) {
    && item.Obj?
    && if "name" in item.fields && "value" in item.fields then IsTextOf(item.fields["name"], k, show) && v == item.fields["value"]
       else k in item.fields && v == item.fields[k]
            && (|item.fields| <= 1 || k !in {"name", "kind", "version", "description", "reason"})
  }

  ghost predicate PutsAt(item: Json, k: string, show: Show) {
    exists v :: Puts(item, k, v, show)
  }

  lemma WrittenExactly(item: Json, k: string, v: Json, show: Show)
    requires item.Obj?
    ensures k in Written(item.fields, show) && Written(item.fields, show)[k] == v <==> Puts(item, k, v, show)
    ensures k in Written(item.fields, show) <==> PutsAt(item, k, show)
  {
    if k in Written(item.fields, show) { assert Puts(item, k, Written(item.fields, show)[k], show); }
  }

  /** The item takes the key away: one of its members, or the text it is. */
  ghost predicate Takes(item: Json, k: string, show: Show) {
    match item
    case Obj(fields) => k in fields
    case _ => IsTextOf(item, k, show)
  }

  /** The last item that writes the key writes this value. */
  ghost predicate LastPuts(writes: seq<Json>, k: string, v: Json, show: Show) {
    exists i :: IsLastPut(writes, i, k, v, show)
  }

  ghost predicate IsLastPut(writes: seq<Json>, i: int, k: string, v: Json, show: Show) {
    0 <= i < |writes| && Puts(writes[i], k, v, show) && forall j | i < j < |writes| :: !PutsAt(writes[j], k, show)
  }

  ghost predicate IsPut(writes: seq<Json>, k: string, show: Show) {
    exists i :: 0 <= i < |writes| && PutsAt(writes[i], k, show)
  }

  ghost predicate IsTaken(remove: seq<Json>, k: string, show: Show) {
    exists i :: 0 <= i < |remove| && Takes(remove[i], k, show)
  }

  lemma TakenExactly(remove: seq<Json>, k: string, show: Show)
    ensures Removes(remove, k, show) <==> IsTaken(remove, k, show)
  {
    if IsTaken(remove, k, show) {
      var i :| 0 <= i < |remove| && Takes(remove[i], k, show);
      assert remove[i] in remove && k in RemovedKeys(remove[i], show);
    }
  }

  lemma EndsBelow(writes: seq<Json>, k: string, v: Json, show: Show)
    requires writes != []
    ensures LastPuts(writes, k, v, show) <==>
      LastPuts(writes[1..], k, v, show) || (Puts(writes[0], k, v, show) && !IsPut(writes[1..], k, show))
    ensures IsPut(writes, k, show) <==> PutsAt(writes[0], k, show) || IsPut(writes[1..], k, show)
  {
    var rest := writes[1..];
    if LastPuts(writes, k, v, show) {
      var i :| IsLastPut(writes, i, k, v, show);
      if i == 0 {
        forall j | 0 <= j < |rest| ensures !PutsAt(rest[j], k, show) { assert rest[j] == writes[j + 1]; }
      } else {
        assert rest[i - 1] == writes[i] && IsLastPut(rest, i - 1, k, v, show);
      }
    }
    if LastPuts(rest, k, v, show) {
      var i :| IsLastPut(rest, i, k, v, show);
      assert IsLastPut(writes, i + 1, k, v, show);
    }
    if Puts(writes[0], k, v, show) && !IsPut(rest, k, show) {
      forall j | 0 < j < |writes| ensures !PutsAt(writes[j], k, show) { assert writes[j] == rest[j - 1]; }
      assert IsLastPut(writes, 0, k, v, show);
    }
    if IsPut(rest, k, show) {
      var i :| 0 <= i < |rest| && PutsAt(rest[i], k, show);
      assert writes[i + 1] == rest[i];
    }
  }

  lemma {:induction false} LastWriteWins(fields: Fields, writes: seq<Json>, added: seq<Json>, k: string, v: Json, show: Show)
    requires WriteKeys(fields, writes, added, show).Success?
    ensures var after := WriteKeys(fields, writes, added, show).value;
      k in after && after[k] == v <==>
        LastPuts(writes, k, v, show) || (!IsPut(writes, k, show) && k in fields && fields[k] == v)
    decreases |writes|
  {
    if writes != [] {
      var next := fields + Written(writes[0].fields, show);
      LastWriteWins(next, writes[1..], added, k, v, show);
      WrittenExactly(writes[0], k, v, show);
      EndsBelow(writes, k, v, show);
      if LastPuts(writes[1..], k, v, show) {
        var i :| IsLastPut(writes[1..], i, k, v, show);
        assert PutsAt(writes[1..][i], k, show);
      }
    }
  }

  /** A key of the ownership has a value after a delta exactly when the last change or addition that writes
      the key writes it, or none does, none takes the key, and it was there with that value. */
  lemma OwnershipExactly(fields: Fields, delta: DeltaSet, k: string, v: Json, show: Show)
    requires MapApplied(fields, delta, show).Success?
    ensures var after, writes := MapApplied(fields, delta, show).value, delta.change + delta.add;
      k in after && after[k] == v <==>
        || LastPuts(writes, k, v, show)
        || (!IsPut(writes, k, show) && !IsTaken(delta.remove, k, show) && k in fields && fields[k] == v)
  {
    RemovalsTakeExactly(fields, delta.remove, k, show);
    TakenExactly(delta.remove, k, show);
    LastWriteWins(RemoveKeys(fields, delta.remove, show).value, delta.change + delta.add, delta.add, k, v, show);
  }

  /** Every key the item takes is there, and no item before it takes it. */
  ghost predicate TakesWhatIsThere(fields: Fields, remove: seq<Json>, i: int, show: Show)
    requires 0 <= i < |remove|
  {
    forall k | Takes(remove[i], k, show) :: k in fields && forall j | 0 <= j < i :: !Takes(remove[j], k, show)
  }

  lemma TakesExactly(item: Json, k: string, show: Show)
    ensures k in RemovedKeys(item, show) <==> Takes(item, k, show)
  {
  }

  lemma {:induction false} RemovalAppliesExactly(fields: Fields, remove: seq<Json>, show: Show)
    ensures RemoveKeys(fields, remove, show).Success? <==> forall i | 0 <= i < |remove| :: TakesWhatIsThere(fields, remove, i, show)
    decreases |remove|
  {
    if remove != [] {
      var left, rest := fields - RemovedKeys(remove[0], show), remove[1..];
      forall k ensures k in RemovedKeys(remove[0], show) <==> Takes(remove[0], k, show) { TakesExactly(remove[0], k, show); }
      RemovalAppliesExactly(left, rest, show);
      assert RemovedKeys(remove[0], show) <= fields.Keys <==> TakesWhatIsThere(fields, remove, 0, show);
      forall i | 0 <= i < |rest| ensures TakesWhatIsThere(left, rest, i, show) <==> TakesWhatIsThere(fields, remove, i + 1, show) {
        TakenBelow(fields, remove, i, show);
      }
      assert forall i | 1 <= i < |remove| :: TakesWhatIsThere(fields, remove, i, show) <==> TakesWhatIsThere(left, rest, i - 1, show);
    }
  }

  lemma TakenBelow(fields: Fields, remove: seq<Json>, i: int, show: Show)
    requires remove != [] && 0 <= i < |remove| - 1
    ensures TakesWhatIsThere(fields - RemovedKeys(remove[0], show), remove[1..], i, show) <==> TakesWhatIsThere(fields, remove, i + 1, show)
  {
    var left, rest := fields - RemovedKeys(remove[0], show), remove[1..];
    forall k ensures k in left <==> k in fields && !Takes(remove[0], k, show) { TakesExactly(remove[0], k, show); }
    if TakesWhatIsThere(left, rest, i, show) {
      forall k, j | Takes(remove[i + 1], k, show) && 0 <= j < i + 1 ensures !Takes(remove[j], k, show) {
        assert Takes(rest[i], k, show);
        if j > 0 { assert remove[j] == rest[j - 1]; }
      }
      forall k | Takes(remove[i + 1], k, show) ensures k in fields { assert Takes(rest[i], k, show); }
    }
    if TakesWhatIsThere(fields, remove, i + 1, show) {
      forall k | Takes(rest[i], k, show) ensures k in left && forall j | 0 <= j < i :: !Takes(rest[j], k, show) {
        assert Takes(remove[i + 1], k, show);
        forall j | 0 <= j < i ensures !Takes(rest[j], k, show) { assert rest[j] == remove[j + 1]; }
      }
    }
  }

  /** The item is an addition of a named value under a key that is there or that an item before it put. */
  ghost predicate AddsAgain(fields: Fields, writes: seq<Json>, i: int, added: seq<Json>, show: Show)
    requires 0 <= i < |writes|
  {
    && writes[i].Obj? && "name" in writes[i].fields && "value" in writes[i].fields && writes[i] in added
    && exists k :: IsTextOf(writes[i].fields["name"], k, show) && (k in fields || IsPut(writes[..i], k, show))
  }

  lemma PutOrThere(fields: Fields, writes: seq<Json>, n: nat, k: string, show: Show)
    requires n < |writes| && writes[0].Obj?
    ensures k in fields + Written(writes[0].fields, show) || IsPut(writes[1..][..n], k, show) <==>
      k in fields || IsPut(writes[..n + 1], k, show)
  {
    WrittenExactly(writes[0], k, Null, show);
    assert writes[..n + 1][1..] == writes[1..][..n];
    EndsBelow(writes[..n + 1], k, Null, show);
  }

  lemma AddsAgainBelow(fields: Fields, writes: seq<Json>, i: int, added: seq<Json>, show: Show)
    requires writes != [] && writes[0].Obj? && 0 <= i < |writes| - 1
    ensures AddsAgain(fields + Written(writes[0].fields, show), writes[1..], i, added, show)
      <==> AddsAgain(fields, writes, i + 1, added, show)
  {
    var next, rest := fields + Written(writes[0].fields, show), writes[1..];
    assert rest[i] == writes[i + 1];
    forall k ensures k in next || IsPut(rest[..i], k, show) <==> k in fields || IsPut(writes[..i + 1], k, show) {
      PutOrThere(fields, writes, i, k, show);
    }
    if AddsAgain(next, rest, i, added, show) {
      var k :| IsTextOf(rest[i].fields["name"], k, show) && (k in next || IsPut(rest[..i], k, show));
      assert k in fields || IsPut(writes[..i + 1], k, show);
    }
    if AddsAgain(fields, writes, i + 1, added, show) {
      var k :| IsTextOf(writes[i + 1].fields["name"], k, show) && (k in fields || IsPut(writes[..i + 1], k, show));
      assert k in next || IsPut(rest[..i], k, show);
    }
  }

  lemma AddsAtOnce(fields: Fields, writes: seq<Json>, added: seq<Json>, show: Show)
    requires writes != [] && writes[0].Obj?
    ensures AddsAgain(fields, writes, 0, added, show) <==>
      NamesOneKey(writes[0].fields) && TextOfValue(writes[0].fields["name"], show) in fields && writes[0] in added
  {
    assert writes[..0] == [];
    if NamesOneKey(writes[0].fields) {
      var name := writes[0].fields["name"];
      assert IsTextOf(name, TextOfValue(name, show), show);
    }
  }

  lemma {:induction false} WritingAppliesExactly(fields: Fields, writes: seq<Json>, added: seq<Json>, show: Show)
    ensures WriteKeys(fields, writes, added, show).Success? <==>
      forall i | 0 <= i < |writes| :: writes[i].Obj? && !AddsAgain(fields, writes, i, added, show)
    decreases |writes|
  {
    if writes != [] && writes[0].Obj? {
      var next, rest := fields + Written(writes[0].fields, show), writes[1..];
      WritingAppliesExactly(next, rest, added, show);
      AddsAtOnce(fields, writes, added, show);
      forall i | 0 <= i < |rest|
        ensures AddsAgain(next, rest, i, added, show) <==> AddsAgain(fields, writes, i + 1, added, show)
        ensures rest[i] == writes[i + 1]
      {
        AddsAgainBelow(fields, writes, i, added, show);
      }
      assert forall i | 1 <= i < |writes| :: AddsAgain(fields, writes, i, added, show) <==> AddsAgain(next, rest, i - 1, added, show);
    }
  }

  /** An ownership delta applies exactly when it takes only keys that are there, none twice, and writes only
      objects, none of them an addition of a key that is there by then. */
  lemma OwnershipAppliesExactly(fields: Fields, delta: DeltaSet, show: Show)
    ensures MapApplied(fields, delta, show).Success? <==>
      && (forall i | 0 <= i < |delta.remove| :: TakesWhatIsThere(fields, delta.remove, i, show))
      && var writes := delta.change + delta.add;
         forall i | 0 <= i < |writes| ::
           writes[i].Obj? && !AddsAgain(map k | k in fields && !IsTaken(delta.remove, k, show) :: fields[k], writes, i, delta.add, show)
  {
    RemovalAppliesExactly(fields, delta.remove, show);
    var removed := RemoveKeys(fields, delta.remove, show);
    if removed.Success? {
      forall k ensures k in removed.value <==> k in fields && !IsTaken(delta.remove, k, show) {
        RemovalsTakeExactly(fields, delta.remove, k, show);
        TakenExactly(delta.remove, k, show);
      }
      forall k | k in removed.value ensures removed.value[k] == fields[k] { RemovalsTakeExactly(fields, delta.remove, k, show); }
      assert removed.value == map k | k in fields && !IsTaken(delta.remove, k, show) :: fields[k];
      WritingAppliesExactly(removed.value, delta.change + delta.add, delta.add, show);
    }
  }

  /* ------------------------------------------------------------------- revising */

  ghost predicate SaysItOnce(items: seq<Json>) {
    forall i, j | 0 <= i < |items| && 0 <= j < |items| && items[i] == items[j] :: i == j
  }

  lemma DistinctExactly(items: seq<Json>)
    ensures Distinct(items) <==> SaysItOnce(items)
  {
  }

  ghost predicate AreConditions(items: seq<Json>) {
    forall i | 0 <= i < |items| :: items[i].Text? && SaysSomething(items[i].text)
  }

  lemma ConditionsExactly(items: seq<Json>)
    ensures (forall item | item in items :: IsGivenText(item)) <==> AreConditions(items)
  {
    forall i | 0 <= i < |items| && items[i].Text? ensures IsGivenText(items[i]) <==> SaysSomething(items[i].text) {
      AllBlankStripsAway(items[i].text);
    }
    if forall item | item in items :: IsGivenText(item) {
      forall i | 0 <= i < |items| ensures items[i].Text? && SaysSomething(items[i].text) { assert items[i] in items; }
    }
  }

  /** A revision is valid when it is numbered, has an outcome, repeats no item of its lists, and its
      conditions and its reason, if it has one, say something. */
  lemma ValidExactly(r: Revision)
    ensures IsValid(r) <==>
      && r.version >= 1 && SaysSomething(r.outcome)
      && SaysItOnce(r.imports) && SaysItOnce(r.exports) && SaysItOnce(r.dependencies) && SaysItOnce(r.doneWhen)
      && AreConditions(r.doneWhen) && (r.changeReason.Some? ==> SaysSomething(r.changeReason.value))
  {
    AllBlankStripsAway(r.outcome);
    DistinctExactly(r.imports);
    DistinctExactly(r.exports);
    DistinctExactly(r.dependencies);
    DistinctExactly(r.doneWhen);
    ConditionsExactly(r.doneWhen);
    if r.changeReason.Some? { AllBlankStripsAway(r.changeReason.value); }
  }

  /** A delta makes a revision exactly when its three list edits and its ownership edit apply and the
      result is valid.  The revision has the edited lists and ownership, the proposed version, the delta's
      reason and the time, and names the current revision as the one it supersedes; it has no verification
      specs; everything else it has from the current revision. */
  lemma RevisedExactly(current: Revision, d: Delta, now: string, show: Show)
    ensures var keyOf := NamingBy(show);
      var imports, exports := Applied(current.imports, d.imports, keyOf), Applied(current.exports, d.exports, keyOf);
      var doneWhen, ownership := Applied(current.doneWhen, d.doneWhen, keyOf), MapApplied(current.ownership, d.ownership, show);
      var revised := Revise(current, d, now, show);
      && (revised.Success? <==>
            && imports.Success? && exports.Success? && doneWhen.Success? && ownership.Success?
            && d.proposed >= 1 && SaysSomething(current.outcome) && SaysSomething(d.reason)
            && SaysItOnce(imports.value) && SaysItOnce(exports.value) && SaysItOnce(doneWhen.value) && SaysItOnce(current.dependencies)
            && AreConditions(doneWhen.value))
      && (revised.Success? ==>
            var r := revised.value;
            && r == current.(version := d.proposed, imports := imports.value, exports := exports.value, doneWhen := doneWhen.value,
                             ownership := ownership.value, verificationSpecs := [], createdAt := now, changeReason := Some(d.reason),
                             supersedesId := Some(current.id),
                             supersedesRef := Some(
                               ContractRef(if current.taskId.Some? then "task" else "contract", current.id, current.version))))
  {
    var keyOf := NamingBy(show);
    var imports, exports := Applied(current.imports, d.imports, keyOf), Applied(current.exports, d.exports, keyOf);
    var doneWhen, ownership := Applied(current.doneWhen, d.doneWhen, keyOf), MapApplied(current.ownership, d.ownership, show);
    if imports.Success? && exports.Success? && doneWhen.Success? && ownership.Success? {
      ValidExactly(Combine(current, d, imports.value, exports.value, doneWhen.value, ownership.value, now));
    }
  }
}
