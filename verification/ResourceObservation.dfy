/** Host resource evidence: what makes an observation resolved, and how the evidence columns of a
    stored receipt follow it. */
module ResourceObservation {
  import opened Common
  import opened Content

  /** A route as reported: any member may be absent, blank or padded. */
  datatype RawRoute = RawRoute(model: Option<string>, reasoning: Option<string>, thinking: Option<string>)

  datatype Route = Route(model: string, reasoning: string)

  /** `observedAt` is present only when the reported timestamp is a valid instant. */
  datatype RawObservation = RawObservation(
    requested: RawRoute, resolved: RawRoute, actual: RawRoute,
    state: string, source: Option<string>, observedAt: Option<int>)

  datatype Observation = Observation(
    requested: RawRoute, resolved: RawRoute, actual: Option<Route>,
    isResolved: bool, source: Option<string>, observedAt: Option<int>)

  function TextOf(o: Option<string>): Option<string> {
    if o.Some? && Strip(o.value) != "" then Some(Strip(o.value)) else None
  }

  predicate IsGiven(o: Option<string>) {
    o.Some? && o.value != ""
  }

  /** The first operand unless it is absent or empty. */
  function Either(a: Option<string>, b: Option<string>): Option<string> {
    if IsGiven(a) then a else b
  }

  function RouteOf(raw: RawRoute): Option<Route> {
    var model, reasoning := TextOf(raw.model), TextOf(Either(raw.reasoning, raw.thinking));
    if model.Some? && reasoning.Some? then Some(Route(model.value, reasoning.value)) else None
  }

  function Normalize(raw: RawObservation): Observation {
    var actual, route, source := RouteOf(raw.actual), RouteOf(raw.resolved), TextOf(raw.source);
    var valid := raw.state == "resolved" && actual.Some? && actual == route && source.Some? && raw.observedAt.Some?;
    Observation(raw.requested, raw.resolved, if valid then actual else None, valid,
                if valid then source else None, if valid then raw.observedAt else None)
  }

  /** The observation written out and handed back in. */
  function Rewritten(o: Observation): RawObservation {
    RawObservation(
      o.requested, o.resolved,
      if o.actual.Some? then RawRoute(Some(o.actual.value.model), Some(o.actual.value.reasoning), None)
      else RawRoute(None, None, None),
      if o.isResolved then "resolved" else "unresolved", o.source, o.observedAt)
  }

  lemma {:induction false} StripLeftTwice(s: string)
    ensures StripLeft(StripLeft(s)) == StripLeft(s)
    ensures StripLeft(s) != [] ==> !IsBlank(StripLeft(s)[0])
  {
    if s != [] && IsBlank(s[0]) { StripLeftTwice(s[1..]); }
  }

  lemma {:induction false} StripRightKeepsHead(s: string)
    requires s != [] ==> !IsBlank(s[0])
    ensures StripRight(StripRight(s)) == StripRight(s)
    ensures StripRight(s) != [] ==> !IsBlank(StripRight(s)[0])
  {
    if s != [] && IsBlank(s[|s| - 1]) { StripRightKeepsHead(s[..|s| - 1]); }
  }

  lemma StripTwice(s: string)
    ensures Strip(Strip(s)) == Strip(s)
  {
    StripLeftTwice(s);
    StripRightKeepsHead(StripLeft(s));
  }

  /** Normalising is stable: a normalised observation written out and read back is itself. */
  lemma NormalizeIsStable(raw: RawObservation)
    ensures Normalize(Rewritten(Normalize(raw))) == Normalize(raw)
  {
    var o := Normalize(raw);
    if o.isResolved {
      StripTwice(raw.source.value);
      StripTwice(raw.actual.model.value);
      StripTwice(Either(raw.actual.reasoning, raw.actual.thinking).value);
      assert RouteOf(Rewritten(o).actual) == o.actual;
    }
  }

  /** The evidence columns of a receipt row. */
  datatype Evidence = Evidence(
    requestedModel: Option<string>, requestedReasoning: Option<string>,
    resolvedModel: Option<string>, resolvedReasoning: Option<string>,
    actualModel: Option<string>, actualReasoning: Option<string>,
    isResolved: bool, source: Option<string>, observedAt: Option<int>)

  function EvidenceOf(o: Observation): Evidence {
    Evidence(
      o.requested.model, Either(o.requested.reasoning, o.requested.thinking),
      o.resolved.model, Either(o.resolved.reasoning, o.resolved.thinking),
      if o.actual.Some? then Some(o.actual.value.model) else None,
      if o.actual.Some? then Some(o.actual.value.reasoning) else None,
      o.isResolved, o.source, o.observedAt)
  }

  function Coalesce<T>(a: Option<T>, b: Option<T>): Option<T> {
    if a.Some? then a else b
  }

  /** The column update of a later receipt: resolved evidence is kept as it is. */
  function MergedEvidence(before: Evidence, incoming: Evidence): Evidence {
    if before.isResolved then before
    else
      Evidence(
        Coalesce(incoming.requestedModel, before.requestedModel), Coalesce(incoming.requestedReasoning, before.requestedReasoning),
        Coalesce(incoming.resolvedModel, before.resolvedModel), Coalesce(incoming.resolvedReasoning, before.resolvedReasoning),
        Coalesce(incoming.actualModel, before.actualModel), Coalesce(incoming.actualReasoning, before.actualReasoning),
        incoming.isResolved, Coalesce(incoming.source, before.source), Coalesce(incoming.observedAt, before.observedAt))
  }

  /** A resolved row has a complete actual route, equal to its resolved route up to padding, a source
      and a timestamp; an unresolved row has none of them. */
  ghost predicate EvidenceOk(e: Evidence) {
    if e.isResolved then
      && e.actualModel.Some? && e.actualModel == TextOf(e.resolvedModel)
      && e.actualReasoning.Some? && e.actualReasoning == TextOf(e.resolvedReasoning)
      && e.source.Some? && e.observedAt.Some?
    else e.actualModel.None? && e.actualReasoning.None? && e.source.None? && e.observedAt.None?
  }

  lemma ObservedEvidenceIsOk(raw: RawObservation)
    ensures EvidenceOk(EvidenceOf(Normalize(raw)))
  {
  }

  /** The text is written there, apart from white space around it, and is not empty. */
  ghost predicate Reads(o: Option<string>, text: string) {
    o.Some? && Strip(o.value) == text && text != ""
  }

  /** The route names the reasoning, or under its older name when it gives none under the new one. */
  ghost predicate ReasonsAs(route: RawRoute, text: string) {
    if route.reasoning.Some? && route.reasoning.value != "" then Reads(route.reasoning, text) else Reads(route.thinking, text)
  }

  ghost predicate IsRoute(route: RawRoute, model: string, reasoning: string) {
    Reads(route.model, model) && ReasonsAs(route, reasoning)
  }

  /** Evidence is resolved exactly when the report says so, its actual and its resolved route are complete
      and the same, and it has a source and a time; it then reads them without the white space. */
  lemma ResolvedExactly(raw: RawObservation)
    ensures var e := EvidenceOf(Normalize(raw));
      && (e.isResolved <==>
            && raw.state == "resolved" && raw.observedAt.Some?
            && (exists text :: Reads(raw.source, text))
            && (exists model, reasoning :: IsRoute(raw.actual, model, reasoning) && IsRoute(raw.resolved, model, reasoning)))
      && (e.isResolved ==>
            && e.actualModel.Some? && e.actualReasoning.Some? && IsRoute(raw.actual, e.actualModel.value, e.actualReasoning.value)
            && e.source.Some? && Reads(raw.source, e.source.value) && e.observedAt == raw.observedAt)
      && e.requestedModel == raw.requested.model && e.resolvedModel == raw.resolved.model
      && (e.requestedReasoning == if raw.requested.reasoning.Some? && raw.requested.reasoning.value != "" then raw.requested.reasoning
                                  else raw.requested.thinking)
      && (e.resolvedReasoning == if raw.resolved.reasoning.Some? && raw.resolved.reasoning.value != "" then raw.resolved.reasoning
                                 else raw.resolved.thinking)
  {
    var e := EvidenceOf(Normalize(raw));
    if e.isResolved {
      assert Reads(raw.source, e.source.value);
      assert IsRoute(raw.actual, e.actualModel.value, e.actualReasoning.value);
      assert IsRoute(raw.resolved, e.actualModel.value, e.actualReasoning.value);
    }
  }

  /** The column has what came, or else what was there. */
  ghost predicate IsTakenFrom<T(!new)>(after: Option<T>, incoming: Option<T>, before: Option<T>) {
    if incoming.Some? then after == incoming else after == before
  }

  /** Evidence that is not resolved yet takes every column that comes, and is resolved when what comes is. */
  lemma MergedExactly(before: Evidence, incoming: Evidence)
    requires !before.isResolved
    ensures var after := MergedEvidence(before, incoming);
      && IsTakenFrom(after.requestedModel, incoming.requestedModel, before.requestedModel)
      && IsTakenFrom(after.requestedReasoning, incoming.requestedReasoning, before.requestedReasoning)
      && IsTakenFrom(after.resolvedModel, incoming.resolvedModel, before.resolvedModel)
      && IsTakenFrom(after.resolvedReasoning, incoming.resolvedReasoning, before.resolvedReasoning)
      && IsTakenFrom(after.actualModel, incoming.actualModel, before.actualModel)
      && IsTakenFrom(after.actualReasoning, incoming.actualReasoning, before.actualReasoning)
      && IsTakenFrom(after.source, incoming.source, before.source)
      && IsTakenFrom(after.observedAt, incoming.observedAt, before.observedAt)
      && after.isResolved == incoming.isResolved
  {
  }

  lemma MergedEvidenceIsOk(before: Evidence, incoming: Evidence)
    requires EvidenceOk(before) && EvidenceOk(incoming)
    ensures EvidenceOk(MergedEvidence(before, incoming))
    ensures before.isResolved ==> MergedEvidence(before, incoming) == before
    ensures MergedEvidence(before, incoming).isResolved <==> before.isResolved || incoming.isResolved
  {
  }
}
