/** Contract revisions: what a row keeps of a record, what a delta makes of the current revision, and
    the linear history that every sequence of puts and deltas produces. */
module ContractRevisions {
  import opened Common
  import opened Json
  import opened ListDelta

  datatype ContractRef = ContractRef(scope: string, id: string, version: int)

  datatype Revision = Revision(
    id: string, version: int, taskId: Option<string>, runRef: Option<string>, outcome: string,
    imports: seq<Json>, exports: seq<Json>, dependencies: seq<Json>, doneWhen: seq<Json>, verificationSpecs: seq<Json>,
    ownership: Fields, permissions: Fields, contextPolicy: Fields, createdAt: string,
    supersedesId: Option<string>, supersedesRef: Option<ContractRef>, changeReason: Option<string>, extensions: Fields)

  /** The columns of the contracts table. */
  datatype Row = Row(
    id: string, version: int, taskId: Option<string>, outcome: string,
    imports: seq<Json>, exports: seq<Json>, doneWhen: seq<Json>, verificationSpecs: seq<Json>,
    ownership: Fields, permissions: Fields, contextPolicy: Fields, createdAt: string, supersedesId: Option<string>)

  function ToRow(r: Revision): Row {
    Row(r.id, r.version, r.taskId, r.outcome, r.imports, r.exports, r.doneWhen, r.verificationSpecs,
        r.ownership, r.permissions, r.contextPolicy, r.createdAt, r.supersedesId)
  }

  function FromRow(row: Row): Revision {
    Revision(row.id, row.version, row.taskId, None, row.outcome, row.imports, row.exports, [], row.doneWhen, row.verificationSpecs,
             row.ownership, row.permissions, row.contextPolicy, row.createdAt, row.supersedesId, None, None, map[])
  }

  /** A record read back is the record put exactly when it had nothing the table has no column for. */
  lemma ReadBackIsExact(r: Revision)
    ensures FromRow(ToRow(r)) == r <==>
      r.runRef.None? && r.dependencies == [] && r.supersedesRef.None? && r.changeReason.None? && r.extensions == map[]
    ensures ToRow(FromRow(ToRow(r))) == ToRow(r)
  {
  }

  function RefOf(r: Revision): ContractRef {
    ContractRef(if r.taskId.Some? then "task" else "contract", r.id, r.version)
  }

  predicate IsGivenText(value: Json) {
    value.Text? && Strip(value.text) != ""
  }

  predicate IsValid(r: Revision) {
    && r.version >= 1 && Strip(r.outcome) != ""
    && Distinct(r.imports) && Distinct(r.exports) && Distinct(r.dependencies) && Distinct(r.doneWhen)
    && (forall item | item in r.doneWhen :: IsGivenText(item))
    && (r.changeReason.Some? ==> Strip(r.changeReason.value) != "")
  }

  /* ----------------------------------------------------------- ownership delta */

  datatype MapError = RemovesAbsentKey | NotAnObject | AddsDuplicateKey

  const DESCRIBING: set<string> := {"name", "kind", "version", "description", "reason"}

  function RemovedKeys(item: Json, show: Show): set<string> {
    if item.Obj? then item.fields.Keys else {TextOfValue(item, show)}
  }

  predicate NamesOneKey(fields: Fields) {
    "name" in fields && "value" in fields
  }

  /** What one change or addition writes. */
  function Written(fields: Fields, show: Show): Fields {
    if NamesOneKey(fields) then map[TextOfValue(fields["name"], show) := fields["value"]]
    else map k | k in fields && !(k in DESCRIBING && |fields| > 1) :: fields[k]
  }

  function RemoveKeys(fields: Fields, remove: seq<Json>, show: Show): Result<Fields, MapError>
    decreases |remove|
  {
    if remove == [] then Success(fields)
    else if RemovedKeys(remove[0], show) <= fields.Keys
    then RemoveKeys(fields - RemovedKeys(remove[0], show), remove[1..], show)
    else Failure(RemovesAbsentKey)
  }

  function WriteKeys(fields: Fields, writes: seq<Json>, added: seq<Json>, show: Show): Result<Fields, MapError>
    decreases |writes|
  {
    if writes == [] then Success(fields)
    else if !writes[0].Obj? then Failure(NotAnObject)
    else if NamesOneKey(writes[0].fields) && TextOfValue(writes[0].fields["name"], show) in fields && writes[0] in added
    then Failure(AddsDuplicateKey)
    else WriteKeys(fields + Written(writes[0].fields, show), writes[1..], added, show)
  }

  function MapApplied(fields: Fields, delta: DeltaSet, show: Show): Result<Fields, MapError> {
    var left := RemoveKeys(fields, delta.remove, show);
    if left.Failure? then left else WriteKeys(left.value, delta.change + delta.add, delta.add, show)
  }

  predicate Writes(writes: seq<Json>, k: string, show: Show) {
    exists item | item in writes :: item.Obj? && k in Written(item.fields, show)
  }

  predicate Removes(remove: seq<Json>, k: string, show: Show) {
    exists item | item in remove :: k in RemovedKeys(item, show)
  }

  lemma {:induction false} RemovalsTakeExactly(fields: Fields, remove: seq<Json>, k: string, show: Show)
    requires RemoveKeys(fields, remove, show).Success?
    ensures var after := RemoveKeys(fields, remove, show).value;
      && (k in after <==> k in fields && !Removes(remove, k, show))
      && (k in after ==> after[k] == fields[k])
      && (Removes(remove, k, show) ==> k in fields)
    decreases |remove|
  {
    if remove != [] {
      RemovalsTakeExactly(fields - RemovedKeys(remove[0], show), remove[1..], k, show);
      assert remove == [remove[0]] + remove[1..];
      assert Removes(remove, k, show) <==> k in RemovedKeys(remove[0], show) || Removes(remove[1..], k, show);
    }
  }

  lemma {:induction false} WritesTouchOnlyWritten(fields: Fields, writes: seq<Json>, added: seq<Json>, k: string, show: Show)
    requires WriteKeys(fields, writes, added, show).Success?
    ensures var after := WriteKeys(fields, writes, added, show).value;
      && (k in after <==> k in fields || Writes(writes, k, show))
      && (!Writes(writes, k, show) && k in fields ==> after[k] == fields[k])
    decreases |writes|
  {
    if writes != [] {
      WritesTouchOnlyWritten(fields + Written(writes[0].fields, show), writes[1..], added, k, show);
      assert writes == [writes[0]] + writes[1..];
      assert Writes(writes, k, show) <==> k in Written(writes[0].fields, show) || Writes(writes[1..], k, show);
    }
  }

  /** An ownership delta has a key afterwards exactly when it wrote it or found it and did not remove
      it; a key it neither removes nor writes keeps its value. */
  lemma MapDeltaTouchesOnlyWhatItNames(fields: Fields, delta: DeltaSet, k: string, show: Show)
    requires MapApplied(fields, delta, show).Success?
    ensures var after := MapApplied(fields, delta, show).value;
      var writes := delta.change + delta.add;
      && (k in after <==> Writes(writes, k, show) || (k in fields && !Removes(delta.remove, k, show)))
      && (!Writes(writes, k, show) && !Removes(delta.remove, k, show) && k in fields ==> after[k] == fields[k])
  {
    RemovalsTakeExactly(fields, delta.remove, k, show);
    WritesTouchOnlyWritten(RemoveKeys(fields, delta.remove, show).value, delta.change + delta.add, delta.add, k, show);
  }

  /* ------------------------------------------------------------------ revising */

  datatype Delta = Delta(
    base: ContractRef, proposed: int, key: string, reason: string,
    imports: DeltaSet, exports: DeltaSet, doneWhen: DeltaSet, ownership: DeltaSet)

  datatype ContractError =
    | InvalidRevision | AlreadyExists | NotContiguous | FirstMustBeOne
    | BaseMismatch | KeyUsedElsewhere | NotFound | StaleBase | WrongProposal
    | ListRefused(inList: ListError) | MapRefused(inMap: MapError)

  function Combine(current: Revision, d: Delta, imports: seq<Json>, exports: seq<Json>, doneWhen: seq<Json>,
                   ownership: Fields, now: string): Revision
  {
    Revision(current.id, d.proposed, current.taskId, current.runRef, current.outcome, imports, exports, current.dependencies,
             doneWhen, [], ownership, current.permissions, current.contextPolicy, now,
             Some(current.id), Some(RefOf(current)), Some(d.reason), current.extensions)
  }

  /** The next revision a delta makes of the current one; the first refusal, in this order. */
  function Revise(current: Revision, d: Delta, now: string, show: Show): Result<Revision, ContractError> {
    var keyOf := NamingBy(show);
    var imports := Applied(current.imports, d.imports, keyOf);
    if imports.Failure? then Failure(ListRefused(imports.error)) else
    var exports := Applied(current.exports, d.exports, keyOf);
    if exports.Failure? then Failure(ListRefused(exports.error)) else
    var doneWhen := Applied(current.doneWhen, d.doneWhen, keyOf);
    if doneWhen.Failure? then Failure(ListRefused(doneWhen.error)) else
    var ownership := MapApplied(current.ownership, d.ownership, show);
    if ownership.Failure? then Failure(MapRefused(ownership.error)) else
    var revised := Combine(current, d, imports.value, exports.value, doneWhen.value, ownership.value, now);
    if IsValid(revised) then Success(revised) else Failure(InvalidRevision)
  }

  /* ---------------------------------------------------------------- the repository */

  /** The contracts table by its primary key, and the deltas this process has applied. */
  datatype Repo = Repo(rows: map<(string, int), Row>, applied: map<string, Revision>)

  function Versions(rows: map<(string, int), Row>, id: string): set<nat> {
    set k | k in rows && k.0 == id && k.1 >= 0 :: k.1 as nat
  }

  ghost function CurrentOf(rows: map<(string, int), Row>, id: string): nat {
    Largest(Versions(rows, id))
  }

  ghost function PutRefusal(rows: map<(string, int), Row>, r: Revision): Option<ContractError> {
    var current := CurrentOf(rows, r.id);
    if !IsValid(r) then Some(InvalidRevision)
    else if (r.id, r.version) in rows then Some(AlreadyExists)
    else if current != 0 && r.version != current + 1 then Some(NotContiguous)
    else if current == 0 && r.version != 1 then Some(FirstMustBeOne)
    else None
  }

  function Inserted(rows: map<(string, int), Row>, r: Revision): map<(string, int), Row> {
    rows[(r.id, r.version) := ToRow(r)]
  }

  ghost function Put(s: Repo, r: Revision): Repo {
    if PutRefusal(s.rows, r).Some? then s else s.(rows := Inserted(s.rows, r))
  }

  /** The revision a delta would insert, or why it inserts none. */
  ghost function Proposal(rows: map<(string, int), Row>, d: Delta, now: string, show: Show): Result<Revision, ContractError> {
    var current := CurrentOf(rows, d.base.id);
    if (d.base.id, current) !in rows then Failure(NotFound)
    else if current != d.base.version then Failure(StaleBase)
    else if d.proposed != current + 1 then Failure(WrongProposal)
    else Revise(FromRow(rows[(d.base.id, current)]), d, now, show)
  }

  ghost function Answer(s: Repo, requested: Option<ContractRef>, d: Delta, now: string, show: Show): Result<Revision, ContractError> {
    if requested.Some? && requested.value != d.base then Failure(BaseMismatch)
    else if d.key in s.applied then
      if s.applied[d.key].id == d.base.id && s.applied[d.key].version == d.proposed then Success(s.applied[d.key])
      else Failure(KeyUsedElsewhere)
    else Proposal(s.rows, d, now, show)
  }

  ghost function ApplyDelta(s: Repo, requested: Option<ContractRef>, d: Delta, now: string, show: Show): Repo {
    var answer := Answer(s, requested, d, now, show);
    if answer.Failure? || d.key in s.applied then s
    else Repo(Inserted(s.rows, answer.value), s.applied[d.key := answer.value])
  }

  datatype Event =
    | PutEvent(record: Revision)
    | DeltaEvent(requested: Option<ContractRef>, delta: Delta, now: string)
    | Restart

  ghost function Step(s: Repo, e: Event, show: Show): Repo {
    match e
    case PutEvent(record) => Put(s, record)
    case DeltaEvent(requested, delta, now) => ApplyDelta(s, requested, delta, now, show)
    case Restart => s.(applied := map[])
  }

  ghost function Run(s: Repo, events: seq<Event>, show: Show): Repo
    decreases |events|
  {
    if events == [] then s else Run(Step(s, events[0], show), events[1..], show)
  }

  /* ---------------------------------------------------------------- linear history */

  /** The versions of a contract are exactly 1..n. */
  ghost predicate Gapless(rows: map<(string, int), Row>, id: string) {
    Versions(rows, id) == OneTo(CurrentOf(rows, id))
  }

  /** Every row stands under its own id and version, and every history is gapless. */
  ghost predicate RowsOk(rows: map<(string, int), Row>) {
    && (forall k | k in rows :: rows[k].id == k.0 && rows[k].version == k.1 && k.1 >= 1)
    && (forall id :: Gapless(rows, id))
  }

  /** Every remembered delta has its row. */
  ghost predicate AppliedOk(s: Repo) {
    forall k | k in s.applied ::
      var r := s.applied[k]; (r.id, r.version) in s.rows && s.rows[(r.id, r.version)] == ToRow(r)
  }

  ghost predicate Sound(s: Repo) {
    RowsOk(s.rows) && AppliedOk(s)
  }

  lemma EmptyIsSound()
    ensures Sound(Repo(map[], map[]))
  {
    forall id ensures Gapless(map[], id) {
      assert Versions(map[], id) == {};
    }
  }

  lemma VersionsAfterInsert(rows: map<(string, int), Row>, r: Revision, id: string)
    requires r.version >= 1
    ensures Versions(Inserted(rows, r), id) == Versions(rows, id) + if id == r.id then {r.version} else {}
  {
    var after := Inserted(rows, r);
    forall v | v in Versions(rows, id) ensures v in Versions(after, id) { assert (id, v) in after; }
    if id == r.id { assert (id, r.version) in after; }
  }

  /** The next version extends 1..n to 1..n+1. */
  lemma NextVersionIsGapless(rows: map<(string, int), Row>, r: Revision)
    requires Gapless(rows, r.id) && r.version == CurrentOf(rows, r.id) + 1
    ensures Gapless(Inserted(rows, r), r.id) && CurrentOf(Inserted(rows, r), r.id) == r.version
  {
    VersionsAfterInsert(rows, r, r.id);
    LargestOfOneTo(r.version);
    assert OneTo(r.version - 1) + {r.version} == OneTo(r.version);
  }

  lemma OtherHistoriesStay(rows: map<(string, int), Row>, r: Revision, id: string)
    requires Gapless(rows, id) && r.version >= 1 && id != r.id
    ensures Gapless(Inserted(rows, r), id)
  {
    VersionsAfterInsert(rows, r, id);
    assert Versions(Inserted(rows, r), id) == Versions(rows, id);
  }

  lemma InsertKeepsRowsOk(rows: map<(string, int), Row>, r: Revision)
    requires RowsOk(rows) && r.version == CurrentOf(rows, r.id) + 1
    ensures RowsOk(Inserted(rows, r)) && (r.id, r.version) !in rows
  {
    HasCurrentRow(rows, r.id, r.version);
    forall id ensures Gapless(Inserted(rows, r), id) {
      if id == r.id { NextVersionIsGapless(rows, r); } else { OtherHistoriesStay(rows, r, id); }
    }
  }

  lemma HasCurrentRow(rows: map<(string, int), Row>, id: string, v: int)
    requires RowsOk(rows)
    ensures (id, v) in rows <==> 1 <= v <= CurrentOf(rows, id)
  {
    assert Gapless(rows, id);
    if 1 <= v <= CurrentOf(rows, id) { assert v in Versions(rows, id); }
    if (id, v) in rows { assert v in Versions(rows, id); }
  }

  /** What a put refuses, once histories are gapless: everything but the next version. */
  lemma PutExactlyTheNextVersion(rows: map<(string, int), Row>, r: Revision)
    requires RowsOk(rows)
    ensures PutRefusal(rows, r).None? <==> IsValid(r) && r.version == CurrentOf(rows, r.id) + 1
  {
    HasCurrentRow(rows, r.id, r.version);
  }

  lemma RevisedIsNext(rows: map<(string, int), Row>, d: Delta, now: string, show: Show)
    requires RowsOk(rows) && Proposal(rows, d, now, show).Success?
    ensures var r := Proposal(rows, d, now, show).value;
      && r.id == d.base.id && r.version == d.proposed == CurrentOf(rows, r.id) + 1 == d.base.version + 1
      && IsValid(r)
  {
  }

  lemma InsertKeepsApplied(s: Repo, r: Revision, applied: map<string, Revision>)
    requires AppliedOk(s) && (r.id, r.version) !in s.rows
    requires forall k | k in applied :: applied[k] == r || (k in s.applied && applied[k] == s.applied[k])
    ensures AppliedOk(Repo(Inserted(s.rows, r), applied))
  {
  }

  /** Every operation keeps the history of every contract gapless. */
  lemma StepKeepsSound(s: Repo, e: Event, show: Show)
    requires Sound(s)
    ensures Sound(Step(s, e, show))
  {
    match e {
      case PutEvent(r) =>
        PutExactlyTheNextVersion(s.rows, r);
        if PutRefusal(s.rows, r).None? {
          InsertKeepsRowsOk(s.rows, r);
          InsertKeepsApplied(s, r, s.applied);
        }
      case DeltaEvent(requested, d, now) =>
        DeltaKeepsSound(s, requested, d, now, show);
      case Restart =>
    }
  }

  lemma ProposalKeepsSound(s: Repo, r: Revision, key: string)
    requires Sound(s) && IsValid(r) && r.version == CurrentOf(s.rows, r.id) + 1
    ensures Sound(Repo(Inserted(s.rows, r), s.applied[key := r]))
    ensures (r.id, r.version) !in s.rows && PutRefusal(s.rows, r).None?
  {
    InsertKeepsRowsOk(s.rows, r);
    InsertKeepsApplied(s, r, s.applied[key := r]);
    PutExactlyTheNextVersion(s.rows, r);
  }

  lemma DeltaKeepsSound(s: Repo, requested: Option<ContractRef>, d: Delta, now: string, show: Show)
    requires Sound(s)
    ensures Sound(ApplyDelta(s, requested, d, now, show))
    ensures var answer := Answer(s, requested, d, now, show);
      answer.Success? && d.key !in s.applied ==>
        (answer.value.id, answer.value.version) !in s.rows && PutRefusal(s.rows, answer.value).None?
  {
    var answer := Answer(s, requested, d, now, show);
    if answer.Success? && d.key !in s.applied {
      RevisedIsNext(s.rows, d, now, show);
      ProposalKeepsSound(s, answer.value, d.key);
    }
  }

  /** The rows that are there stay there as they are. */
  ghost predicate Extends(rows: map<(string, int), Row>, after: map<(string, int), Row>) {
    forall k | k in rows :: k in after && after[k] == rows[k]
  }

  lemma StepExtends(s: Repo, e: Event, show: Show)
    requires Sound(s)
    ensures Extends(s.rows, Step(s, e, show).rows)
  {
    match e {
      case PutEvent(r) =>
      case DeltaEvent(requested, d, now) => DeltaKeepsSound(s, requested, d, now, show);
      case Restart =>
    }
  }

  /** Over every run of puts, deltas and restarts: each contract's versions are exactly 1..n, and no
      row, once there, is changed or lost. */
  lemma {:induction false} HistoryIsLinear(s: Repo, events: seq<Event>, show: Show)
    requires Sound(s)
    ensures Sound(Run(s, events, show)) && Extends(s.rows, Run(s, events, show).rows)
    decreases |events|
  {
    if events != [] {
      StepKeepsSound(s, events[0], show);
      StepExtends(s, events[0], show);
      HistoryIsLinear(Step(s, events[0], show), events[1..], show);
    }
  }

  /* -------------------------------------------------------- one successor, replays */

  /** A base that has a successor gets no other: a delta on it leaves the table alone. */
  lemma OneSuccessor(s: Repo, requested: Option<ContractRef>, d: Delta, now: string, show: Show)
    requires Sound(s) && d.base.version >= 1 && (d.base.id, d.base.version + 1) in s.rows
    ensures ApplyDelta(s, requested, d, now, show) == s
    ensures d.key !in s.applied ==> Answer(s, requested, d, now, show).Failure?
  {
    HasCurrentRow(s.rows, d.base.id, d.base.version + 1);
  }

  /** A delta adds a row exactly when it is asked about its own base, is new to this process, builds on
      the current version, proposes the next one and its edits apply; it then adds that one row. */
  lemma DeltaAddsExactly(s: Repo, requested: Option<ContractRef>, d: Delta, now: string, show: Show)
    requires Sound(s)
    ensures ApplyDelta(s, requested, d, now, show).rows != s.rows <==>
      && (requested.Some? ==> requested.value == d.base) && d.key !in s.applied
      && d.base.version >= 1 && d.base.version == CurrentOf(s.rows, d.base.id) && d.proposed == d.base.version + 1
      && Revise(FromRow(s.rows[(d.base.id, d.base.version)]), d, now, show).Success?
  {
    HasCurrentRow(s.rows, d.base.id, CurrentOf(s.rows, d.base.id));
    DeltaKeepsSound(s, requested, d, now, show);
    var answer := Answer(s, requested, d, now, show);
    if answer.Success? && d.key !in s.applied {
      RevisedIsNext(s.rows, d, now, show);
      assert (answer.value.id, answer.value.version) in ApplyDelta(s, requested, d, now, show).rows;
    }
  }

  predicate Restarts(events: seq<Event>) {
    Restart in events
  }

  lemma {:induction false} MemoryLasts(s: Repo, events: seq<Event>, key: string, show: Show)
    requires key in s.applied && !Restarts(events)
    ensures var after := Run(s, events, show); key in after.applied && after.applied[key] == s.applied[key]
    decreases |events|
  {
    if events != [] {
      assert events[0] in events && forall e | e in events[1..] :: e in events;
      MemoryLasts(Step(s, events[0], show), events[1..], key, show);
    }
  }

  /** Replaying a delta that was applied, however much later, adds nothing.  A process that has not
      restarted answers with the revision it made; one that has, and forgot, answers with an error. */
  lemma ReplayAddsNothing(s: Repo, requested: Option<ContractRef>, d: Delta, now: string, later: string,
                          events: seq<Event>, show: Show)
    requires Sound(s) && Answer(s, requested, d, now, show).Success?
    requires d.proposed == d.base.version + 1 && d.base.version >= 1
    ensures var first := Answer(s, requested, d, now, show);
      var between := Run(ApplyDelta(s, requested, d, now, show), events, show);
      && ApplyDelta(between, requested, d, later, show) == between
      && (!Restarts(events) ==> Answer(between, requested, d, later, show) == first)
      && (d.key !in between.applied ==> Answer(between, requested, d, later, show).Failure?)
  {
    var first := Answer(s, requested, d, now, show);
    var once := ApplyDelta(s, requested, d, now, show);
    DeltaKeepsSound(s, requested, d, now, show);
    if d.key !in s.applied { RevisedIsNext(s.rows, d, now, show); }
    assert once.applied[d.key] == first.value;
    assert (d.base.id, d.proposed) in once.rows;
    HistoryIsLinear(once, events, show);
    var between := Run(once, events, show);
    OneSuccessor(between, requested, d, later, show);
    if !Restarts(events) { MemoryLasts(once, events, d.key, show); }
  }

  /* ---------------------------------------------------------- what a delta carries over */

  /** The new row's lists and ownership are the edited ones, and what a delta cannot name it carries
      over; all but the verification specs, which are kept exactly when there were none. */
  lemma RevisionCarriesOver(current: Row, d: Delta, now: string, show: Show)
    requires Revise(FromRow(current), d, now, show).Success?
    ensures var row := ToRow(Revise(FromRow(current), d, now, show).value);
      && row.taskId == current.taskId && row.outcome == current.outcome
      && row.permissions == current.permissions && row.contextPolicy == current.contextPolicy
      && row.supersedesId == Some(current.id) && row.version == d.proposed
      && Success(row.imports) == Applied(current.imports, d.imports, NamingBy(show))
      && Success(row.exports) == Applied(current.exports, d.exports, NamingBy(show))
      && Success(row.doneWhen) == Applied(current.doneWhen, d.doneWhen, NamingBy(show))
      && Success(row.ownership) == MapApplied(current.ownership, d.ownership, show)
      && (row.verificationSpecs == current.verificationSpecs <==> current.verificationSpecs == [])
  {
  }

  /** The lists of a row name no item twice. */
  ghost predicate Keyed(row: Row, show: Show) {
    && Distinct(Keys(row.imports, NamingBy(show)))
    && Distinct(Keys(row.exports, NamingBy(show)))
    && Distinct(Keys(row.doneWhen, NamingBy(show)))
  }

  ghost predicate AllKeyed(rows: map<(string, int), Row>, show: Show) {
    forall k | k in rows :: Keyed(rows[k], show)
  }

  ghost predicate PutsKeyed(events: seq<Event>, show: Show) {
    forall e | e in events && e.PutEvent? :: Keyed(ToRow(e.record), show)
  }

  lemma RevisionIsKeyed(current: Row, d: Delta, now: string, show: Show)
    requires Keyed(current, show) && Revise(FromRow(current), d, now, show).Success?
    ensures Keyed(ToRow(Revise(FromRow(current), d, now, show).value), show)
  {
    RevisionCarriesOver(current, d, now, show);
    AppliedKeepsOrder(current.imports, d.imports, NamingBy(show));
    AppliedKeepsOrder(current.exports, d.exports, NamingBy(show));
    AppliedKeepsOrder(current.doneWhen, d.doneWhen, NamingBy(show));
  }

  /** When no put names an item twice, no revision of any run does. */
  lemma {:induction false} DeltasKeepKeys(s: Repo, events: seq<Event>, show: Show)
    requires AllKeyed(s.rows, show) && PutsKeyed(events, show)
    ensures AllKeyed(Run(s, events, show).rows, show)
    decreases |events|
  {
    if events != [] {
      var e := events[0];
      assert e in events && forall other | other in events[1..] :: other in events;
      if e.DeltaEvent? {
        var answer := Answer(s, e.requested, e.delta, e.now, show);
        if answer.Success? && e.delta.key !in s.applied {
          RevisionIsKeyed(s.rows[(e.delta.base.id, CurrentOf(s.rows, e.delta.base.id))], e.delta, e.now, show);
        }
      }
      DeltasKeepKeys(Step(s, e, show), events[1..], show);
    }
  }
}
