/** What deltas make of a contract over a whole run, and what a delta that shares its key is answered. */
module ContractDeltas {
  import opened Common
  import opened Json
  import opened ListDelta
  import opened ContractRevisions

  /* ------------------------------------------------- what a delta cannot name, over runs */

  /** The row keeps all of `origin` that no delta can name but its verification specs, which are gone. */
  predicate Descends(origin: Row, row: Row) {
    && row.taskId == origin.taskId && row.outcome == origin.outcome
    && row.permissions == origin.permissions && row.contextPolicy == origin.contextPolicy
    && row.verificationSpecs == [] && row.supersedesId == Some(origin.id) && row.id == origin.id
  }

  /** No event puts a revision of the contract from outside. */
  ghost predicate NoPutOf(events: seq<Event>, id: string) {
    forall e | e in events && e.PutEvent? :: e.record.id != id
  }

  /** The versions after `n` all descend from version `n`. */
  ghost predicate DescendFrom(rows: map<(string, int), Row>, id: string, n: nat, origin: Row) {
    forall v | n < v <= CurrentOf(rows, id) :: (id, v) in rows && Descends(origin, rows[(id, v)])
  }

  /** The contract stays at its version, or gains one that descends from its latest. */
  ghost predicate GrowsByDescent(rows: map<(string, int), Row>, after: map<(string, int), Row>, id: string) {
    var n := CurrentOf(rows, id);
    && (id, n) in rows
    && (CurrentOf(after, id) == n
        || (CurrentOf(after, id) == n + 1 && (id, n + 1) in after && Descends(rows[(id, n)], after[(id, n + 1)])))
  }

  lemma InsertedVersion(rows: map<(string, int), Row>, r: Revision, id: string)
    requires RowsOk(rows) && r.version == CurrentOf(rows, r.id) + 1
    ensures CurrentOf(Inserted(rows, r), id) == if id == r.id then r.version else CurrentOf(rows, id)
  {
    assert Gapless(rows, r.id);
    NextVersionIsGapless(rows, r);
    if id != r.id {
      VersionsAfterInsert(rows, r, id);
      assert Versions(Inserted(rows, r), id) == Versions(rows, id);
    }
  }

  lemma PutElsewhere(s: Repo, r: Revision, id: string)
    requires Sound(s) && r.id != id
    ensures CurrentOf(Put(s, r).rows, id) == CurrentOf(s.rows, id)
  {
    PutExactlyTheNextVersion(s.rows, r);
    if PutRefusal(s.rows, r).None? { InsertedVersion(s.rows, r, id); }
  }

  lemma RevisionDescends(current: Row, d: Delta, now: string, show: Show)
    requires Revise(FromRow(current), d, now, show).Success?
    ensures Descends(current, ToRow(Revise(FromRow(current), d, now, show).value))
  {
  }

  lemma InsertGrows(rows: map<(string, int), Row>, r: Revision, id: string)
    requires RowsOk(rows) && CurrentOf(rows, id) >= 1 && r.version == CurrentOf(rows, r.id) + 1
    requires (id, CurrentOf(rows, id)) in rows
    requires r.id == id ==> Descends(rows[(id, CurrentOf(rows, id))], ToRow(r))
    ensures GrowsByDescent(rows, Inserted(rows, r), id)
  {
    InsertedVersion(rows, r, id);
  }

  lemma ProposalIsRevision(rows: map<(string, int), Row>, d: Delta, now: string, show: Show)
    requires Proposal(rows, d, now, show).Success?
    ensures var base := (d.base.id, CurrentOf(rows, d.base.id));
      base in rows && Proposal(rows, d, now, show) == Revise(FromRow(rows[base]), d, now, show)
  {
  }

  lemma ProposalDescends(rows: map<(string, int), Row>, d: Delta, now: string, id: string, show: Show)
    requires RowsOk(rows) && CurrentOf(rows, id) >= 1 && Proposal(rows, d, now, show).Success?
    ensures GrowsByDescent(rows, Inserted(rows, Proposal(rows, d, now, show).value), id)
  {
    var r := Proposal(rows, d, now, show).value;
    HasCurrentRow(rows, id, CurrentOf(rows, id));
    assert r.id == d.base.id && r.version == CurrentOf(rows, r.id) + 1 by { RevisedIsNext(rows, d, now, show); }
    assert r.id == id ==> Descends(rows[(id, CurrentOf(rows, id))], ToRow(r)) by {
      ProposalIsRevision(rows, d, now, show);
      RevisionDescends(rows[(d.base.id, CurrentOf(rows, d.base.id))], d, now, show);
    }
    InsertGrows(rows, r, id);
  }

  /** An event other than a put of the contract lets it grow by descent only. */
  lemma EventDescends(s: Repo, e: Event, id: string, show: Show)
    requires Sound(s) && CurrentOf(s.rows, id) >= 1 && (e.PutEvent? ==> e.record.id != id)
    ensures GrowsByDescent(s.rows, Step(s, e, show).rows, id)
  {
    HasCurrentRow(s.rows, id, CurrentOf(s.rows, id));
    match e {
      case PutEvent(r) => PutElsewhere(s, r, id);
      case DeltaEvent(requested, d, now) =>
        if Answer(s, requested, d, now, show).Success? && d.key !in s.applied { ProposalDescends(s.rows, d, now, id, show); }
      case Restart =>
    }
  }

  ghost predicate StaysOrDescends(rows: map<(string, int), Row>, last: map<(string, int), Row>, id: string) {
    var n := CurrentOf(rows, id);
    (id, n) in rows && CurrentOf(last, id) >= n && DescendFrom(last, id, n, rows[(id, n)])
  }

  lemma FromTheFirst(rows: map<(string, int), Row>, next: map<(string, int), Row>, last: map<(string, int), Row>, id: string)
    requires Extends(rows, next) && Extends(next, last)
    requires GrowsByDescent(rows, next, id) && StaysOrDescends(next, last, id)
    ensures StaysOrDescends(rows, last, id)
  {
    var n := CurrentOf(rows, id);
    assert next[(id, n)] == rows[(id, n)];
  }

  /** Over every run that puts no revision of a contract from outside, its task, outcome, permissions
      and context policy never change again, and every version added has no verification specs. */
  lemma {:induction false} DeltasOnlyEdit(s: Repo, events: seq<Event>, id: string, show: Show)
    requires Sound(s) && CurrentOf(s.rows, id) >= 1 && NoPutOf(events, id)
    ensures StaysOrDescends(s.rows, Run(s, events, show).rows, id)
    decreases |events|
  {
    if events == [] {
      HasCurrentRow(s.rows, id, CurrentOf(s.rows, id));
    } else {
      var next, rest := Step(s, events[0], show), events[1..];
      assert events[0] in events && forall e | e in rest :: e in events;
      EventDescends(s, events[0], id, show);
      StepKeepsSound(s, events[0], show);
      StepExtends(s, events[0], show);
      HistoryIsLinear(next, rest, show);
      DeltasOnlyEdit(next, rest, id, show);
      FromTheFirst(s.rows, next.rows, Run(next, rest, show).rows, id);
    }
  }

  /* ----------------------------------------------------------------- shared keys */

  /** The revision is what the delta's own edits make of its base. */
  predicate Reflects(rows: map<(string, int), Row>, d: Delta, r: Revision, show: Show) {
    && (d.base.id, d.base.version) in rows
    && Revise(FromRow(rows[(d.base.id, d.base.version)]), d, r.createdAt, show) == Success(r)
  }

  /** Two deltas make the same of a record. */
  predicate SameEdits(current: Revision, d: Delta, e: Delta, show: Show) {
    && d.reason == e.reason && d.proposed == e.proposed
    && Applied(current.imports, d.imports, NamingBy(show)) == Applied(current.imports, e.imports, NamingBy(show))
    && Applied(current.exports, d.exports, NamingBy(show)) == Applied(current.exports, e.exports, NamingBy(show))
    && Applied(current.doneWhen, d.doneWhen, NamingBy(show)) == Applied(current.doneWhen, e.doneWhen, NamingBy(show))
    && MapApplied(current.ownership, d.ownership, show) == MapApplied(current.ownership, e.ownership, show)
  }

  /** The parts a successful revision is combined from. */
  lemma RevisedParts(current: Revision, d: Delta, now: string, show: Show)
    requires Revise(current, d, now, show).Success?
    ensures var r := Revise(current, d, now, show).value;
      && r.supersedesRef == Some(RefOf(current)) && r.changeReason == Some(d.reason) && r.version == d.proposed
      && Applied(current.imports, d.imports, NamingBy(show)) == Success(r.imports)
      && Applied(current.exports, d.exports, NamingBy(show)) == Success(r.exports)
      && Applied(current.doneWhen, d.doneWhen, NamingBy(show)) == Success(r.doneWhen)
      && MapApplied(current.ownership, d.ownership, show) == Success(r.ownership)
  {
  }

  lemma SameEditsGiveTheSame(current: Revision, d: Delta, e: Delta, now: string, show: Show)
    requires SameEdits(current, d, e, show)
    ensures Revise(current, e, now, show) == Revise(current, d, now, show)
  {
  }

  lemma SameEditsExactly(current: Revision, other: Revision, d: Delta, e: Delta, now: string, show: Show)
    requires Revise(current, d, now, show).Success?
    ensures Revise(current, e, now, show) == Revise(current, d, now, show) <==> SameEdits(current, d, e, show)
    ensures RefOf(other) != RefOf(current) ==> Revise(other, e, now, show) != Revise(current, d, now, show)
  {
    RevisedParts(current, d, now, show);
    if SameEdits(current, d, e, show) { SameEditsGiveTheSame(current, d, e, now, show); }
    if Revise(current, e, now, show).Success? { RevisedParts(current, e, now, show); }
    if Revise(other, e, now, show).Success? { RevisedParts(other, e, now, show); }
  }

  lemma NewKeyReflects(s: Repo, requested: Option<ContractRef>, d: Delta, now: string, show: Show)
    requires Sound(s) && d.key !in s.applied && Answer(s, requested, d, now, show).Success?
    ensures Reflects(s.rows, d, Answer(s, requested, d, now, show).value, show)
    ensures Answer(s, requested, d, now, show).value.createdAt == now
  {
  }

  /** A delta applied under a new key is answered with its own edits.  Later, in the same process, any
      delta with that key is answered exactly when it names the same contract and next version, and
      always with the first one's revision; that is its own exactly when it names the same base version
      and its edits come to the same. */
  lemma SharedKeyAnswers(s: Repo, requested: Option<ContractRef>, d: Delta, now: string, events: seq<Event>,
                         asked: Option<ContractRef>, e: Delta, later: string, show: Show)
    requires Sound(s) && d.key !in s.applied && Answer(s, requested, d, now, show).Success?
    requires e.key == d.key && !Restarts(events)
    ensures (d.base.id, d.base.version) in s.rows
    ensures var between := Run(ApplyDelta(s, requested, d, now, show), events, show);
      AnsweredAsFirst(between, FromRow(s.rows[(d.base.id, d.base.version)]), d, Answer(s, requested, d, now, show).value,
                      asked, e, later, show)
  {
    NewKeyReflects(s, requested, d, now, show);
    FirstIsRemembered(s, requested, d, now, events, show);
    RememberedAnswers(s.rows, Run(ApplyDelta(s, requested, d, now, show), events, show), d,
                      Answer(s, requested, d, now, show).value, asked, e, later, show);
  }

  lemma FirstIsRemembered(s: Repo, requested: Option<ContractRef>, d: Delta, now: string, events: seq<Event>, show: Show)
    requires Sound(s) && d.key !in s.applied && Answer(s, requested, d, now, show).Success? && !Restarts(events)
    ensures var first := Answer(s, requested, d, now, show).value;
      var between := Run(ApplyDelta(s, requested, d, now, show), events, show);
      && Sound(between) && Extends(s.rows, between.rows)
      && d.key in between.applied && between.applied[d.key] == first
      && first.id == d.base.id && first.version == d.proposed
  {
    var once := ApplyDelta(s, requested, d, now, show);
    DeltaKeepsSound(s, requested, d, now, show);
    RevisedIsNext(s.rows, d, now, show);
    HistoryIsLinear(once, events, show);
    MemoryLasts(once, events, d.key, show);
    StepExtends(s, DeltaEvent(requested, d, now), show);
  }

  ghost predicate AnsweredAsFirst(s: Repo, base: Revision, d: Delta, first: Revision, asked: Option<ContractRef>, e: Delta,
                                  later: string, show: Show)
  {
    var answer := Answer(s, asked, e, later, show);
    && Reflects(s.rows, d, first, show)
    && (answer.Success? <==> (asked.Some? ==> asked.value == e.base) && e.base.id == d.base.id && e.proposed == d.proposed)
    && (answer.Success? ==> answer.value == first)
    && (answer.Success? ==>
          (Reflects(s.rows, e, first, show) <==> e.base.version == d.base.version && SameEdits(base, d, e, show)))
  }

  lemma RememberedAnswers(rows: map<(string, int), Row>, s: Repo, d: Delta, first: Revision, asked: Option<ContractRef>,
                          e: Delta, later: string, show: Show)
    requires Sound(s) && Extends(rows, s.rows) && Reflects(rows, d, first, show)
    requires first.id == d.base.id && first.version == d.proposed
    requires e.key == d.key && d.key in s.applied && s.applied[d.key] == first
    ensures AnsweredAsFirst(s, FromRow(rows[(d.base.id, d.base.version)]), d, first, asked, e, later, show)
  {
    if e.base.id == d.base.id { SharedKeyReflects(rows, s.rows, d, e, first, show); }
    else { SharedKeyReflects(rows, s.rows, d, d, first, show); }
  }

  lemma SharedKeyReflects(rows: map<(string, int), Row>, after: map<(string, int), Row>, d: Delta, e: Delta, first: Revision, show: Show)
    requires RowsOk(after) && Extends(rows, after) && Reflects(rows, d, first, show) && e.base.id == d.base.id
    ensures Reflects(after, d, first, show)
    ensures Reflects(after, e, first, show) <==>
      e.base.version == d.base.version && SameEdits(FromRow(rows[(d.base.id, d.base.version)]), d, e, show)
  {
    var current := FromRow(rows[(d.base.id, d.base.version)]);
    if (e.base.id, e.base.version) in after {
      SameEditsExactly(current, FromRow(after[(e.base.id, e.base.version)]), d, e, first.createdAt, show);
    }
  }

  const UNCHANGED := DeltaSet([], [], [])

  /** A delta that adds one export and gives no key: the key is a digest of its base, its next version
      and its reason, and leaves its edits out. */
  function AddingExport(base: ContractRef, name: string, digest: (ContractRef, int, string) -> string): Delta {
    Delta(base, base.version + 1, digest(base, base.version + 1, "grow"), "grow",
          UNCHANGED, UNCHANGED.(add := [Text(name)]), UNCHANGED, UNCHANGED)
  }

  /** Two deltas without keys of their own, one adding the export "a" and the other "b": the second is
      answered with the revision that has "a", and is never applied. */
  lemma SecondDeltaIsLost(digest: (ContractRef, int, string) -> string, show: Show) returns (s: Repo, d: Delta, e: Delta)
    ensures Sound(s) && d.key == e.key && e.exports.add == [Text("b")]
    ensures var once := ApplyDelta(s, None, d, "", show);
      && Answer(once, None, e, "", show) == Answer(s, None, d, "", show)
      && Answer(s, None, d, "", show).Success? && Answer(s, None, d, "", show).value.exports == [Text("a")]
      && !Reflects(once.rows, e, Answer(once, None, e, "", show).value, show)
  {
    var r := Revision("c", 1, None, None, "o", [], [], [], [], [], map[], map[], map[], "", None, None, None, map[]);
    var empty := Repo(map[], map[]);
    EmptyIsSound();
    s := Put(empty, r);
    d, e := AddingExport(RefOf(r), "a", digest), AddingExport(RefOf(r), "b", digest);
    FirstVersion(empty, r, show);
    AddsOneExport(r, d, "a", show);
    AddsOneExport(r, e, "b", show);
    SharedKeyAnswers(s, None, d, "", [], None, e, "", show);
  }

  lemma FirstVersion(s: Repo, r: Revision, show: Show)
    requires Sound(s) && s.rows == map[] && IsValid(r) && r.version == 1
    ensures Sound(Put(s, r)) && CurrentOf(Put(s, r).rows, r.id) == 1 && Put(s, r).rows == map[(r.id, 1) := ToRow(r)]
  {
    StepKeepsSound(s, PutEvent(r), show);
    assert Versions(s.rows, r.id) == {};
    PutExactlyTheNextVersion(s.rows, r);
    NextVersionIsGapless(s.rows, r);
  }

  lemma AddsOneExport(r: Revision, d: Delta, name: string, show: Show)
    requires r.imports == [] && r.exports == [] && r.doneWhen == [] && r.ownership == map[]
    requires d.imports == UNCHANGED && d.doneWhen == UNCHANGED && d.ownership == UNCHANGED
    requires d.exports == UNCHANGED.(add := [Text(name)])
    ensures Applied(r.imports, d.imports, NamingBy(show)) == Success([])
    ensures Applied(r.doneWhen, d.doneWhen, NamingBy(show)) == Success([])
    ensures Applied(r.exports, d.exports, NamingBy(show)) == Success([Text(name)])
    ensures MapApplied(r.ownership, d.ownership, show) == Success(map[])
  {
    var keyOf := NamingBy(show);
    var add := [Text(name)];
    assert Keys([], keyOf) == [] && add[1..] == [] && [] + [add[0]] == add;
    assert AddAll([], add, keyOf) == AddAll([] + [add[0]], add[1..], keyOf) == Success(add);
    assert Live([]) == [] && ChangeAll([], [], keyOf) == [];
  }
}
