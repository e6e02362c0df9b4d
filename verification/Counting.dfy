/** What the meter has counted is what the events so far amount to, and each budget refuses exactly past its limit. */
module Counting {
  import opened Common
  import opened Errors
  import opened Events
  import opened Metering
  import opened Machine
  import opened Tree

  predicate IsNode(e: Event) { e.Scalar? || e.SequenceStart? || e.MappingStart? }

  function TextOf(e: Event): nat { if e.Scalar? then Utf8Len(e.text) else 0 }

  /** How many of the events satisfy `p`. */
  function Count(events: seq<Event>, p: Event -> bool): nat {
    if events == [] then 0 else Count(Front(events), p) + if p(Last(events)) then 1 else 0
  }

  function TextRead(events: seq<Event>): nat {
    if events == [] then 0 else TextRead(Front(events)) + TextOf(Last(events))
  }

  /** The aliases since the last document start. */
  function AliasesOfDocument(events: seq<Event>): nat {
    if events == [] || Last(events) == DocumentStart then 0
    else AliasesOfDocument(Front(events)) + if Last(events).Alias? then 1 else 0
  }

  function NodesOf(events: seq<Event>): nat { Count(events, (e: Event) => IsNode(e)) }

  function AnchorsOf(events: seq<Event>): nat { Count(events, (e: Event) => IsNode(e) && e.name.Some?) }

  function DocumentsOf(events: seq<Event>): nat { Count(events, (e: Event) => e == DocumentStart) }

  /** Each counter shows its exact total, as far as a machine word goes. */
  ghost predicate Counted(m: Meter, events: seq<Event>) {
    && m.events == Sat(|events|)
    && m.nodes == Sat(NodesOf(events))
    && m.scalarBytes == Sat(TextRead(events))
    && m.anchors == Sat(AnchorsOf(events))
    && m.documents == Sat(DocumentsOf(events))
    && m.aliases == Sat(AliasesOfDocument(events))
  }

  /** No total is past its limit. */
  ghost predicate WithinLimits(c: Config, events: seq<Event>) {
    && Sat(|events|) <= c.maxEvents
    && Sat(NodesOf(events)) <= c.maxNodes
    && Sat(TextRead(events)) <= c.maxTotalScalarBytes
    && Sat(DocumentsOf(events)) <= c.maxDocuments
    && Sat(AliasesOfDocument(events)) <= c.maxAliasExpansions
  }

  /** What an event adds to each counter before the builder acts on it. */
  ghost predicate Advanced(m: Meter, e: Event, m1: Meter) {
    && m1.events == SatAdd(m.events, 1)
    && m1.nodes == SatAdd(m.nodes, if IsNode(e) then 1 else 0)
    && m1.scalarBytes == SatAdd(m.scalarBytes, TextOf(e))
    && m1.anchors == SatAdd(m.anchors, if IsNode(e) && e.name.Some? then 1 else 0)
    && m1.documents == SatAdd(m.documents, if e == DocumentStart then 1 else 0)
    && m1.aliases == (if e == DocumentStart then 0 else SatAdd(m.aliases, if e.Alias? then 1 else 0))
  }

  ghost predicate InWords(m: Meter) {
    && m.events <= USIZE_MAX && m.nodes <= USIZE_MAX && m.scalarBytes <= USIZE_MAX
    && m.anchors <= USIZE_MAX && m.documents <= USIZE_MAX && m.aliases <= USIZE_MAX
  }

  /** The same counters, whatever became of the others. */
  ghost predicate SameCounts(m: Meter, m1: Meter) {
    && m1.events == m.events && m1.nodes == m.nodes && m1.scalarBytes == m.scalarBytes
    && m1.anchors == m.anchors && m1.documents == m.documents && m1.aliases == m.aliases
  }

  lemma ScalarCountsNothing(c: Config, s: State, text: string, style: Style, name: Option<string>, tag: Option<Tag>)
    ensures var r := OnScalar(c, s, text, style, name, tag); r.Ok? ==> SameCounts(s.meter, r.value.meter)
  {
  }

  lemma CloseCountsNothing(c: Config, s: State)
    ensures var r := CloseCollection(c, s); r.Ok? ==> r.value.meter == s.meter
  {
  }

  lemma AliasCountsOne(c: Config, s: State, name: string)
    ensures var r := OnAlias(c, s, name);
      r.Ok? ==> SameCounts(s.meter.(aliases := SatAdd(s.meter.aliases, 1)), r.value.meter)
  {
  }

  lemma StepAdvances(c: Config, s0: State, e: Event)
    requires InWords(s0.meter) && Step(c, s0, e).Ok?
    ensures Advanced(s0.meter, e, Step(c, s0, e).value.meter)
  {
    var s := s0.(meter := ChargeEvent(c, s0.meter, e).value);
    match e
    case Scalar(text, style, name, tag) => ScalarCountsNothing(c, s, text, style, name, tag);
    case Alias(name) => AliasCountsOne(c, s, name);
    case SequenceEnd => CloseCountsNothing(c, s);
    case MappingEnd => CloseCountsNothing(c, s);
    case _ =>
  }

  lemma AdvanceCounts(m: Meter, events: seq<Event>, e: Event, m1: Meter)
    requires Counted(m, events) && Advanced(m, e, m1)
    ensures Counted(m1, events + [e])
  {
    assert Front(events + [e]) == events && Last(events + [e]) == e;
  }

  /** Over a whole run, from the start, on any events at all. */
  lemma {:induction false} RunCounts(c: Config, step: Stepper, events: seq<Event>)
    requires Steps(c, step) && Run(step, START, events).Ok?
    ensures Counted(Run(step, START, events).value.meter, events)
    decreases |events|
  {
    if events != [] {
      var s, e := Run(step, START, Front(events)).value, Last(events);
      RunCounts(c, step, Front(events));
      assert step(s, e) == Step(c, s, e);
      StepAdvances(c, s, e);
      AdvanceCounts(s.meter, Front(events), e, Step(c, s, e).value.meter);
      assert events == Front(events) + [e];
    }
  }

  /** The totals once `e` has been read. */
  datatype Totals = Totals(events: usize, nodes: usize, text: usize, documents: usize, aliases: usize)

  function TotalsOf(events: seq<Event>): Totals {
    Totals(Sat(|events|), Sat(NodesOf(events)), Sat(TextRead(events)), Sat(DocumentsOf(events)),
      Sat(AliasesOfDocument(events)))
  }

  /** The refusals that the totals alone decide, in the order they are tested. */
  function Refusal(c: Config, all: Totals, e: Event): Option<Error> {
    if all.events > c.maxEvents then Some(Budget(MaxEvents(c.maxEvents, all.events)))
    else if IsNode(e) && all.nodes > c.maxNodes then Some(Budget(MaxNodes(c.maxNodes, all.nodes)))
    else if e.Scalar? && all.text > c.maxTotalScalarBytes then
      Some(Budget(MaxTotalScalarBytes(c.maxTotalScalarBytes, all.text)))
    else if e == DocumentStart && all.documents > c.maxDocuments then
      Some(Budget(MaxDocuments(c.maxDocuments, all.documents)))
    else if e.Alias? && all.aliases > c.maxAliasExpansions then Some(RepetitionLimitExceeded)
    else None
  }

  ghost predicate IsCountBreach<T>(r: Result<T, Error>) {
    r.Err? && r.error.Budget? && (
      var b := r.error.breach; b.MaxEvents? || b.MaxNodes? || b.MaxTotalScalarBytes? || b.MaxDocuments?)
  }

  /** `r` is refused as `refusal` says, or at least not for a count. */
  ghost predicate Refused<T>(refusal: Option<Error>, r: Result<T, Error>) {
    (refusal.Some? ==> r == Err(refusal.value)) && (refusal.None? ==> !IsCountBreach(r))
  }

  /**
    * A counting budget refuses an event if and only if a total with that event in it is past
    * its limit, and reports that total.
    */
  lemma BudgetsAreExact(c: Config, step: Stepper, events: seq<Event>, e: Event)
    requires Steps(c, step) && Run(step, START, events).Ok?
    ensures Refused(Refusal(c, TotalsOf(events + [e]), e), Run(step, START, events + [e]))
  {
    var s := Run(step, START, events).value;
    RunCounts(c, step, events);
    assert Front(events + [e]) == events && Last(events + [e]) == e;
    assert step(s, e) == Step(c, s, e);
    NextTotals(s.meter, events, e);
    StepRefuses(c, s, e, TotalsOf(events + [e]));
  }

  /** The totals with one more event are the counters it would leave. */
  ghost predicate Next(m: Meter, e: Event, all: Totals) {
    && all.events == SatAdd(m.events, 1)
    && all.nodes == SatAdd(m.nodes, if IsNode(e) then 1 else 0)
    && all.text == SatAdd(m.scalarBytes, TextOf(e))
    && all.documents == SatAdd(m.documents, if e == DocumentStart then 1 else 0)
    && (e.Alias? ==> all.aliases == SatAdd(m.aliases, 1))
  }

  lemma NextTotals(m: Meter, events: seq<Event>, e: Event)
    requires Counted(m, events)
    ensures Next(m, e, TotalsOf(events + [e]))
  {
    assert Front(events + [e]) == events && Last(events + [e]) == e;
  }

  lemma StepRefuses(c: Config, s0: State, e: Event, all: Totals)
    requires Next(s0.meter, e, all)
    ensures Refused(Refusal(c, all, e), Step(c, s0, e))
  {
    ChargeRefuses(c, s0.meter, e, all);
    var m := ChargeEvent(c, s0.meter, e);
    if m.Ok? {
      var s := s0.(meter := m.value);
      match e
      case Scalar(text, style, name, tag) => ScalarRefusesNoCount(c, s, text, style, name, tag);
      case Alias(name) => AliasRefuses(c, s, name);
      case SequenceEnd => CloseRefusesNoCount(c, s);
      case MappingEnd => CloseRefusesNoCount(c, s);
      case _ =>
    }
  }

  lemma ChargeRefuses(c: Config, m: Meter, e: Event, all: Totals)
    requires Next(m, e, all)
    ensures var r := ChargeEvent(c, m, e);
      if e.Alias? && all.events <= c.maxEvents then r.Ok? && r.value.aliases == m.aliases
      else Refused(Refusal(c, all, e), r) && (Refusal(c, all, e).None? ==> r.Ok?)
  {
  }

  lemma PlacingRefusesNoCount(c: Config, s: State, v: Value)
    ensures !IsCountBreach(PushValue(c, s, v))
  {
  }

  lemma ScalarRefusesNoCount(c: Config, s: State, text: string, style: Style, name: Option<string>, tag: Option<Tag>)
    ensures !IsCountBreach(OnScalar(c, s, text, style, name, tag))
  {
    if !AtKey(s) {
      var v := ResolveScalar(c.rules, text, style, tag);
      PlacingRefusesNoCount(c, s.(anchors := Record(s.anchors, name, v)), v);
    }
  }

  lemma CloseRefusesNoCount(c: Config, s: State)
    ensures !IsCountBreach(CloseCollection(c, s))
  {
    if s.stack != [] {
      var v := Closed(Last(s.stack));
      PlacingRefusesNoCount(c, s.(
        depth := SatSub(s.depth, 1),
        stack := Front(s.stack),
        anchors := Record(s.anchors, Last(s.stack).name, v)), v);
    }
  }

  lemma AliasRefuses(c: Config, s: State, name: string)
    ensures var r := OnAlias(c, s, name);
      !IsCountBreach(r) && (SatAdd(s.meter.aliases, 1) > c.maxAliasExpansions ==> r == Err(RepetitionLimitExceeded))
  {
    var m1 := ChargeAlias(c, s.meter);
    if m1.Ok? && name in s.anchors {
      var m2 := ChargeExpansion(c, m1.value, s.anchors[name].cost, s.depth);
      if m2.Ok? {
        PlacingRefusesNoCount(c, s.(meter := m2.value), s.anchors[name].value);
      }
    }
  }

  /** Without a refusal the totals stay within their limits. */
  lemma StillWithin(c: Config, events: seq<Event>)
    requires events != [] && WithinLimits(c, Front(events))
    requires Refusal(c, TotalsOf(events), Last(events)).None?
    ensures WithinLimits(c, events)
  {
  }

  /** What loads is within every counting limit. */
  lemma {:induction false} LoadedIsWithinLimits(c: Config, step: Stepper, events: seq<Event>)
    requires Steps(c, step) && Run(step, START, events).Ok?
    ensures WithinLimits(c, events)
    decreases |events|
  {
    if events != [] {
      LoadedIsWithinLimits(c, step, Front(events));
      NotRefused(c, step, Front(events), Last(events), events);
      StillWithin(c, events);
    }
  }

  lemma NotRefused(c: Config, step: Stepper, events: seq<Event>, e: Event, all: seq<Event>)
    requires Steps(c, step) && Run(step, START, events).Ok? && Run(step, START, all).Ok? && all == events + [e]
    ensures Refusal(c, TotalsOf(all), e).None?
  {
    BudgetsAreExact(c, step, events, e);
  }
}
