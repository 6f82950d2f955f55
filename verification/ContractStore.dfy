/** The contract repository: compare the base, insert the next version, never rewrite. */
module ContractStore {
  import opened Common
  import opened Json
  import opened ListDelta
  import opened ContractRevisions

  method RemoveFromMap(fields: Fields, remove: seq<Json>, show: Show) returns (r: Result<Fields, MapError>)
    ensures r == RemoveKeys(fields, remove, show)
  {
    var result := fields;
    for i := 0 to |remove|
      invariant RemoveKeys(result, remove[i..], show) == RemoveKeys(fields, remove, show)
    {
      assert remove[i..][1..] == remove[i + 1..];
      var keys := RemovedKeys(remove[i], show);
      if !(keys <= result.Keys) { return Failure(RemovesAbsentKey); }
      result := result - keys;
    }
    r := Success(result);
  }

  method WriteToMap(fields: Fields, writes: seq<Json>, added: seq<Json>, show: Show) returns (r: Result<Fields, MapError>)
    ensures r == WriteKeys(fields, writes, added, show)
  {
    var result := fields;
    for i := 0 to |writes|
      invariant WriteKeys(result, writes[i..], added, show) == WriteKeys(fields, writes, added, show)
    {
      assert writes[i..][1..] == writes[i + 1..];
      var item := writes[i];
      if !item.Obj? { return Failure(NotAnObject); }
      if NamesOneKey(item.fields) {
        var key := TextOfValue(item.fields["name"], show);
        if key in result && item in added { return Failure(AddsDuplicateKey); }
        assert result[key := item.fields["value"]] == result + Written(item.fields, show);
        result := result[key := item.fields["value"]];
      } else {
        result := result + Written(item.fields, show);
      }
    }
    r := Success(result);
  }

  /** The ownership edits, one item at a time: removals first, then changes and additions. */
  method ApplyMapDelta(fields: Fields, delta: DeltaSet, show: Show) returns (r: Result<Fields, MapError>)
    ensures r == MapApplied(fields, delta, show)
  {
    r := RemoveFromMap(fields, delta.remove, show);
    if r.Success? { r := WriteToMap(r.value, delta.change + delta.add, delta.add, show); }
  }

  method ReviseRecord(current: Revision, d: Delta, now: string, show: Show) returns (r: Result<Revision, ContractError>)
    ensures r == Revise(current, d, now, show)
  {
    var keyOf := NamingBy(show);
    var imports := ApplyListDelta(current.imports, d.imports, keyOf);
    if imports.Failure? { return Failure(ListRefused(imports.error)); }
    var exports := ApplyListDelta(current.exports, d.exports, keyOf);
    if exports.Failure? { return Failure(ListRefused(exports.error)); }
    var doneWhen := ApplyListDelta(current.doneWhen, d.doneWhen, keyOf);
    if doneWhen.Failure? { return Failure(ListRefused(doneWhen.error)); }
    var ownership := ApplyMapDelta(current.ownership, d.ownership, show);
    if ownership.Failure? { return Failure(MapRefused(ownership.error)); }
    var revised := Combine(current, d, imports.value, exports.value, doneWhen.value, ownership.value, now);
    r := if IsValid(revised) then Success(revised) else Failure(InvalidRevision);
  }

  /** The revision is what the table holds as the contract's next version after `i` others. */
  ghost predicate IsVersionAfter(rows: map<(string, int), Row>, id: string, i: int, r: Revision) {
    (id, i + 1) in rows && r == FromRow(rows[(id, i + 1)])
  }

  class ContractRepository {
    var rows: map<(string, int), Row>
    var applied: map<string, Revision>

    ghost function View(): Repo
      reads this
    {
      Repo(rows, applied)
    }

    ghost predicate Valid()
      reads this
    {
      Sound(View())
    }

    /** Open an empty database. */
    constructor ()
      ensures Valid() && View() == Repo(map[], map[])
    {
      rows, applied := map[], map[];
      new;
      EmptyIsSound();
    }

    /** Open a database another process has written: the rows are there, the applied deltas forgotten. */
    constructor Reopen(rows: map<(string, int), Row>)
      requires RowsOk(rows)
      ensures Valid() && View() == Repo(rows, map[])
    {
      this.rows, applied := rows, map[];
    }

    method CurrentVersion(id: string) returns (version: nat)
      ensures version == CurrentOf(rows, id)
    {
      version := FindLargest(Versions(rows, id));
    }

    /** The revision asked for, the latest when no version is given. */
    method Get(id: string, version: Option<int>) returns (r: Option<Revision>)
      requires Valid()
      ensures r.Some? <==> (if version.Some? then 1 <= version.value <= CurrentOf(rows, id) else CurrentOf(rows, id) > 0)
      ensures r.Some? ==>
        var v := if version.Some? then version.value else CurrentOf(rows, id);
        (id, v) in rows && r == Some(FromRow(rows[(id, v)]))
    {
      var v: int;
      if version.Some? { v := version.value; } else { v := CurrentVersion(id); }
      HasCurrentRow(rows, id, v);
      r := if (id, v) in rows then Some(FromRow(rows[(id, v)])) else None;
    }

    /** All revisions of a contract, version 1 first, none missing. */
    method History(id: string) returns (revisions: seq<Revision>)
      requires Valid()
      ensures |revisions| == CurrentOf(rows, id)
      ensures forall i | 0 <= i < |revisions| :: IsVersionAfter(rows, id, i, revisions[i])
    {
      var current := CurrentVersion(id);
      revisions := [];
      while |revisions| < current
        invariant |revisions| <= current
        invariant forall i | 0 <= i < |revisions| :: IsVersionAfter(rows, id, i, revisions[i])
      {
        HasCurrentRow(rows, id, |revisions| + 1);
        revisions := revisions + [FromRow(rows[(id, |revisions| + 1)])];
      }
    }

    method CheckPut(record: Revision) returns (refusal: Option<ContractError>)
      ensures refusal == PutRefusal(rows, record)
    {
      if !IsValid(record) { return Some(InvalidRevision); }
      if (record.id, record.version) in rows { return Some(AlreadyExists); }
      var current := CurrentVersion(record.id);
      if current != 0 && record.version != current + 1 { return Some(NotContiguous); }
      if current == 0 && record.version != 1 { return Some(FirstMustBeOne); }
      refusal := None;
    }

    method Insert(record: Revision) returns (refusal: Option<ContractError>)
      requires Valid()
      modifies this
      ensures Valid() && View() == Put(old(View()), record)
      ensures refusal == PutRefusal(old(rows), record)
    {
      StepKeepsSound(View(), PutEvent(record), _ => "");
      refusal := CheckPut(record);
      if refusal.None? {
        rows := rows[(record.id, record.version) := ToRow(record)];
      }
    }

    method Propose(d: Delta, now: string, show: Show) returns (r: Result<Revision, ContractError>)
      ensures r == Proposal(rows, d, now, show)
    {
      var current := CurrentVersion(d.base.id);
      if (d.base.id, current) !in rows { return Failure(NotFound); }
      if current != d.base.version { return Failure(StaleBase); }
      if d.proposed != current + 1 { return Failure(WrongProposal); }
      r := ReviseRecord(FromRow(rows[(d.base.id, current)]), d, now, show);
    }

    /** The revision remembered under a delta's key, if it is the one the delta asks for. */
    method Recall(d: Delta) returns (r: Result<Revision, ContractError>)
      requires d.key in applied
      ensures r == if applied[d.key].id == d.base.id && applied[d.key].version == d.proposed
        then Success(applied[d.key]) else Failure(KeyUsedElsewhere)
    {
      var earlier := applied[d.key];
      if earlier.id == d.base.id && earlier.version == d.proposed { return Success(earlier); }
      r := Failure(KeyUsedElsewhere);
    }

    /** Insert the revision a new delta makes, and remember it. */
    method ApplyNew(d: Delta, now: string, show: Show) returns (r: Result<Revision, ContractError>)
      requires Valid() && d.key !in applied
      modifies this
      ensures r == Proposal(old(rows), d, now, show)
      ensures View() == ApplyDelta(old(View()), None, d, now, show)
    {
      DeltaKeepsSound(View(), None, d, now, show);
      r := Propose(d, now, show);
      if r.Success? {
        var refused := Insert(r.value);
        assert refused.None?;
        applied := applied[d.key := r.value];
      }
    }

    method Apply(requested: Option<ContractRef>, d: Delta, now: string, show: Show) returns (r: Result<Revision, ContractError>)
      requires Valid()
      modifies this
      ensures Valid() && View() == ApplyDelta(old(View()), requested, d, now, show)
      ensures r == Answer(old(View()), requested, d, now, show)
    {
      DeltaKeepsSound(View(), requested, d, now, show);
      if requested.Some? && requested.value != d.base { return Failure(BaseMismatch); }
      if d.key in applied {
        r := Recall(d);
      } else {
        r := ApplyNew(d, now, show);
      }
    }
  }
}
