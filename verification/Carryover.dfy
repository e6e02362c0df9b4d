/**
  * What the meter carries from one document of a stream to the next. A document start resets
  * the alias count and the alias bytes; the merge keys and the jump charge run on, so a
  * document can be refused for what an earlier one used.
  */
module Carryover {
  import opened Common
  import opened Errors
  import opened Events
  import opened Metering
  import opened Tree
  import opened Machine
  import opened Syntax
  import opened Evaluation

  // ----- where a scalar is a key, from the events alone -----

  datatype Slot = Item | KeyNext | ValueNext

  /** A finished node fills the slot it stands in. */
  function Filled(slots: seq<Slot>): seq<Slot> {
    if slots != [] && Last(slots) == ValueNext then Front(slots) + [KeyNext] else slots
  }

  predicate KeyIsNext(slots: seq<Slot>) { slots != [] && Last(slots) == KeyNext }

  function SlotsAfter(slots: seq<Slot>, e: Event): seq<Slot> {
    if e.Scalar? || e.Alias? then
      if KeyIsNext(slots) then Front(slots) + [ValueNext] else Filled(slots)
    else if e.SequenceStart? then slots + [Item]
    else if e.MappingStart? then slots + [KeyNext]
    else if (e.SequenceEnd? || e.MappingEnd?) && slots != [] then Filled(Front(slots))
    else slots
  }

  function SlotsOf(events: seq<Event>): seq<Slot> {
    if events == [] then [] else SlotsAfter(SlotsOf(Front(events)), Last(events))
  }

  predicate IsMergeKey(slots: seq<Slot>, e: Event) {
    KeyIsNext(slots) && e.Scalar? && e.style == Plain && e.text == MERGE_KEY
  }

  /** The plain `<<` keys of the whole stream so far. */
  function MergesOf(events: seq<Event>): nat {
    if events == [] then 0
    else MergesOf(Front(events)) + if IsMergeKey(SlotsOf(Front(events)), Last(events)) then 1 else 0
  }

  /** Those since the last document start. */
  function MergesOfDocument(events: seq<Event>): nat {
    if events == [] || Last(events) == DocumentStart then 0
    else MergesOfDocument(Front(events)) + if IsMergeKey(SlotsOf(Front(events)), Last(events)) then 1 else 0
  }

  lemma {:induction false} DocumentIsPart(events: seq<Event>)
    ensures MergesOfDocument(events) <= MergesOf(events)
  {
    if events != [] {
      DocumentIsPart(Front(events));
    }
  }

  function SlotOf(f: Frame): Slot {
    match f case SequenceFrame(_, _) => Item case KeyFrame(_, _) => KeyNext case ValueFrame(_, _, _) => ValueNext
  }

  function Slots(stack: seq<Frame>): (slots: seq<Slot>)
    ensures |slots| == |stack|
  {
    if stack == [] then [] else Slots(Front(stack)) + [SlotOf(Last(stack))]
  }

  lemma SlotsPushed(stack: seq<Frame>, f: Frame)
    ensures Slots(stack + [f]) == Slots(stack) + [SlotOf(f)]
  {
    assert Front(stack + [f]) == stack;
  }

  lemma PlacingFills(c: Config, s: State, v: Value)
    ensures PushValue(c, s, v).Ok? ==> Slots(PushValue(c, s, v).value.stack) == Filled(Slots(s.stack))
  {
    if s.stack != [] && PushValue(c, s, v).Ok? {
      SlotsPushed(Front(s.stack), Last(PushValue(c, s, v).value.stack));
    }
  }

  lemma KeyIsSet(s: State, key: string)
    requires AtKey(s)
    ensures Slots(SetKey(s, key).stack) == Front(Slots(s.stack)) + [ValueNext]
  {
    SlotsPushed(Front(s.stack), Last(SetKey(s, key).stack));
  }

  lemma AliasMovesSlots(c: Config, s: State, name: string)
    ensures OnAlias(c, s, name).Ok? ==>
      Slots(OnAlias(c, s, name).value.stack) == SlotsAfter(Slots(s.stack), Alias(name))
  {
    var r := OnAlias(c, s, name);
    if r.Ok? {
      var s1 := s.(meter := r.value.meter);
      if AtKey(s) {
        KeyIsSet(s1, AliasKey(c.rules, s.anchors[name].value).value);
      } else {
        PlacingFills(c, s1, s.anchors[name].value);
      }
    }
  }

  lemma ScalarMovesSlots(c: Config, s: State, text: string, style: Style, name: Option<string>, tag: Option<Tag>)
    ensures OnScalar(c, s, text, style, name, tag).Ok? ==>
      Slots(OnScalar(c, s, text, style, name, tag).value.stack) ==
        SlotsAfter(Slots(s.stack), Scalar(text, style, name, tag))
  {
    var r := OnScalar(c, s, text, style, name, tag);
    if r.Ok? {
      if AtKey(s) {
        KeyIsSet(s.(meter := r.value.meter), text);
      } else {
        var v := ResolveScalar(c.rules, text, style, tag);
        PlacingFills(c, s.(anchors := Record(s.anchors, name, v)), v);
      }
    }
  }

  lemma CloseMovesSlots(c: Config, s: State)
    requires s.stack != [] && CloseCollection(c, s).Ok?
    ensures Slots(CloseCollection(c, s).value.stack) == Filled(Front(Slots(s.stack)))
  {
    var v := Closed(Last(s.stack));
    assert Front(Slots(s.stack)) == Slots(Front(s.stack));
    PlacingFills(c, s.(
      depth := SatSub(s.depth, 1),
      stack := Front(s.stack),
      anchors := Record(s.anchors, Last(s.stack).name, v)), v);
  }

  /** The stack's frames are the slots the events have opened. */
  lemma StepMovesSlots(c: Config, s0: State, e: Event)
    requires Step(c, s0, e).Ok?
    ensures Slots(Step(c, s0, e).value.stack) == SlotsAfter(Slots(s0.stack), e)
  {
    var s := s0.(meter := ChargeEvent(c, s0.meter, e).value);
    match e
    case Scalar(text, style, name, tag) => ScalarMovesSlots(c, s, text, style, name, tag);
    case Alias(name) => AliasMovesSlots(c, s, name);
    case SequenceStart(name) => SlotsPushed(s.stack, SequenceFrame([], name));
    case MappingStart(name) => SlotsPushed(s.stack, KeyFrame([], name));
    case SequenceEnd => CloseMovesSlots(c, s);
    case MappingEnd => CloseMovesSlots(c, s);
    case _ =>
  }

  lemma {:induction false} RunMovesSlots(c: Config, step: Stepper, events: seq<Event>)
    requires Steps(c, step) && Run(step, START, events).Ok?
    ensures Slots(Run(step, START, events).value.stack) == SlotsOf(events)
    decreases |events|
  {
    if events != [] {
      var s, e := Run(step, START, Front(events)).value, Last(events);
      RunMovesSlots(c, step, Front(events));
      assert step(s, e) == Step(c, s, e);
      StepMovesSlots(c, s, e);
    }
  }

  // ----- what each event adds -----

  /** The cost of the value an alias stands for. */
  ghost function CostOf(s: State, e: Event): AliasCost {
    if e.Alias? && e.anchor in s.anchors then s.anchors[e.anchor].cost else AliasCost(0, 0, 0, 0)
  }

  ghost function MergeOf(c: Config, s: State, e: Event): nat {
    if c.rules.mergeKeys == Auto && AtKey(s) && e.Scalar? && e.style == Plain && e.text == MERGE_KEY then 1 else 0
  }

  ghost predicate Carries(c: Config, s: State, e: Event, m1: Meter) {
    && m1.mergeKeys == SatAdd(s.meter.mergeKeys, MergeOf(c, s, e))
    && m1.jumpCharge == SatAdd(s.meter.jumpCharge, if c.aliasJumpEventFactor.Some? then CostOf(s, e).jump else 0)
    && m1.aliasBytes == if e == DocumentStart then 0 else SatAdd(s.meter.aliasBytes, CostOf(s, e).Bytes(c))
  }

  ghost predicate InWords(m: Meter) {
    m.mergeKeys <= USIZE_MAX && m.jumpCharge <= USIZE_MAX && m.aliasBytes <= USIZE_MAX
  }

  lemma ScalarCarries(c: Config, s: State, e: Event)
    requires e.Scalar? && InWords(s.meter) && OnScalar(c, s, e.text, e.style, e.name, e.tag).Ok?
    ensures Carries(c, s, e, OnScalar(c, s, e.text, e.style, e.name, e.tag).value.meter)
  {
  }

  lemma AliasCarries(c: Config, s: State, e: Event)
    requires e.Alias? && InWords(s.meter) && OnAlias(c, s, e.anchor).Ok?
    ensures Carries(c, s, e, OnAlias(c, s, e.anchor).value.meter)
  {
  }

  lemma CloseCarries(c: Config, s: State)
    ensures CloseCollection(c, s).Ok? ==> CloseCollection(c, s).value.meter == s.meter
  {
  }

  lemma StepCarries(c: Config, s0: State, e: Event)
    requires InWords(s0.meter) && Step(c, s0, e).Ok?
    ensures Carries(c, s0, e, Step(c, s0, e).value.meter)
  {
    var s := s0.(meter := ChargeEvent(c, s0.meter, e).value);
    match e
    case Scalar(text, style, name, tag) => ScalarCarries(c, s, e);
    case Alias(name) => AliasCarries(c, s, e);
    case SequenceEnd => CloseCarries(c, s);
    case MappingEnd => CloseCarries(c, s);
    case _ =>
  }

  // ----- the totals of a run -----

  /** The nodes of every value an alias of the stream stood for. */
  ghost function JumpsOf(step: Stepper, events: seq<Event>): nat {
    if events == [] then 0
    else JumpsOf(step, Front(events)) + CostAt(step, events).jump
  }

  /** The bytes of those since the last document start. */
  ghost function AliasBytesOfDocument(c: Config, step: Stepper, events: seq<Event>): nat {
    if events == [] || Last(events) == DocumentStart then 0
    else AliasBytesOfDocument(c, step, Front(events)) + CostAt(step, events).Bytes(c)
  }

  /** The cost of the last event, if it is an alias. */
  ghost function CostAt(step: Stepper, events: seq<Event>): AliasCost
    requires events != []
  {
    var before := Run(step, START, Front(events));
    if before.Ok? then CostOf(before.value, Last(events)) else AliasCost(0, 0, 0, 0)
  }

  ghost predicate Carried(c: Config, step: Stepper, m: Meter, events: seq<Event>) {
    && m.mergeKeys == (if c.rules.mergeKeys == Auto then Sat(MergesOf(events)) else 0)
    && m.jumpCharge == (if c.aliasJumpEventFactor.Some? then Sat(JumpsOf(step, events)) else 0)
    && m.aliasBytes == Sat(AliasBytesOfDocument(c, step, events))
  }

  /**
    * After any run the merge keys and the jump charge are totals of the whole stream; the alias
    * bytes are those of the present document.
    */
  lemma {:induction false} RunCarries(c: Config, step: Stepper, events: seq<Event>)
    requires Steps(c, step) && Run(step, START, events).Ok?
    ensures Carried(c, step, Run(step, START, events).value.meter, events)
    decreases |events|
  {
    if events != [] {
      var s, e := Run(step, START, Front(events)).value, Last(events);
      RunCarries(c, step, Front(events));
      RunMovesSlots(c, step, Front(events));
      assert step(s, e) == Step(c, s, e);
      StepCarries(c, s, e);
      KeySlot(s);
    }
  }

  lemma KeySlot(s: State)
    ensures KeyIsNext(Slots(s.stack)) <==> AtKey(s)
  {
  }

  // ----- the merge-key budget -----

  /**
    * Once its other charges pass, a merge key is refused if and only if the merge keys of the
    * whole stream, itself included, are past the limit, and that total is reported.
    */
  lemma MergeBudgetIsExact(c: Config, step: Stepper, events: seq<Event>, e: Event)
    requires Steps(c, step) && Run(step, START, events).Ok? && c.rules.mergeKeys == Auto
    requires IsMergeKey(SlotsOf(events), e) && ChargeEvent(c, Run(step, START, events).value.meter, e).Ok?
    ensures var r, total := Run(step, START, events + [e]), Sat(MergesOf(events + [e]));
      if total > c.maxMergeKeys then r == Err(Budget(MaxMergeKeys(c.maxMergeKeys, total))) else r.Ok?
  {
    var s := Run(step, START, events).value;
    RunCarries(c, step, events);
    RunMovesSlots(c, step, events);
    KeySlot(s);
    assert Front(events + [e]) == events && Last(events + [e]) == e;
    assert step(s, e) == Step(c, s, e);
    assert Sat(MergesOf(events + [e])) == SatAdd(s.meter.mergeKeys, 1);
    MergeKeyIsCharged(c, s, e);
  }

  lemma MergeKeyIsCharged(c: Config, s: State, e: Event)
    requires c.rules.mergeKeys == Auto && AtKey(s) && e.Scalar? && e.style == Plain && e.text == MERGE_KEY
    requires ChargeEvent(c, s.meter, e).Ok?
    ensures var r, total := Step(c, s, e), SatAdd(s.meter.mergeKeys, 1);
      if total > c.maxMergeKeys then r == Err(Budget(MaxMergeKeys(c.maxMergeKeys, total))) else r.Ok?
  {
  }

  /** The verdict the documentation describes: the merge keys of each document by themselves. */
  predicate DocumentedVerdict(c: Config, all: seq<Event>) { Sat(MergesOfDocument(all)) <= c.maxMergeKeys }

  /**
    * The code's verdict is the documented one if and only if the whole stream is still within
    * the limit or the document alone is past it.
    */
  lemma MergeVerdictsAgree(c: Config, step: Stepper, events: seq<Event>, e: Event)
    requires Steps(c, step) && Run(step, START, events).Ok? && c.rules.mergeKeys == Auto
    requires IsMergeKey(SlotsOf(events), e) && ChargeEvent(c, Run(step, START, events).value.meter, e).Ok?
    ensures var all := events + [e];
      (Run(step, START, all).Ok? <==> DocumentedVerdict(c, all)) <==>
        Sat(MergesOf(all)) <= c.maxMergeKeys || Sat(MergesOfDocument(all)) > c.maxMergeKeys
  {
    MergeBudgetIsExact(c, step, events, e);
    DocumentIsPart(events + [e]);
  }

  // ----- a stream of two documents, one merge key each, under a limit of one -----

  const ONE_PAIR: Pair := Pair(ScalarKey(MERGE_KEY, Plain, None, None), ScalarNode("", Quoted, None, None))
  const ONE_MERGE: Node := MappingNode(None, [ONE_PAIR])

  /** No limit but the merge keys' is near. */
  ghost predicate Roomy(c: Config, m: Meter) {
    && m.events + 10 <= c.maxEvents && m.nodes + 10 <= c.maxNodes && m.scalarBytes + 10 <= c.maxTotalScalarBytes
    && m.documents + 1 <= c.maxDocuments
    && 1 <= c.maxDepth && 1 <= c.maxMappingKeys && c.rules.mergeKeys == Auto
  }

  /** The meter after one such document. */
  function AfterOneMerge(m: Meter): Meter {
    m.(events := m.events + 6, nodes := m.nodes + 3, scalarBytes := m.scalarBytes + 2, documents := m.documents + 1,
      aliases := 0, aliasBytes := 0, mergeKeys := m.mergeKeys + 1)
  }

  lemma OnePairIsRead(c: Config, ctx: Ctx)
    ensures EvalPairs(c, ONE_MERGE.pairs, 1, ctx) == EvalPair(c, ONE_PAIR, [], 1, ctx)
  {
    var pairs := ONE_MERGE.pairs;
    assert Front(pairs) == [] && Last(pairs) == ONE_PAIR;
    assert EvalPairs(c, Front(pairs), 1, ctx) == Ok(([], ctx));
  }

  lemma OnePairIsCharged(c: Config, ctx: Ctx)
    requires ctx.meter.events + 4 <= c.maxEvents && ctx.meter.nodes + 4 <= c.maxNodes
    requires ctx.meter.scalarBytes + 4 <= c.maxTotalScalarBytes && c.rules.mergeKeys == Auto && 1 <= c.maxMappingKeys
    ensures var r, m := EvalPair(c, ONE_PAIR, [], 1, ctx), ctx.meter;
      if m.mergeKeys < c.maxMergeKeys then
        && r.Ok?
        && r.value.1.meter == m.(
             events := m.events + 2, nodes := m.nodes + 2, scalarBytes := m.scalarBytes + 2,
               mergeKeys := m.mergeKeys + 1)
      else
        r == Err(Budget(MaxMergeKeys(c.maxMergeKeys, SatAdd(m.mergeKeys, 1)))) ||
          SatAdd(m.mergeKeys, 1) <= c.maxMergeKeys
  {
    assert Utf8Len(MERGE_KEY) == 2 && Utf8Len("") == 0;
  }

  lemma OneMergeIsRead(c: Config, m: Meter)
    requires m.events + 8 <= c.maxEvents && m.nodes + 8 <= c.maxNodes && m.scalarBytes + 8 <= c.maxTotalScalarBytes
    requires c.rules.mergeKeys == Auto && 1 <= c.maxMappingKeys && 1 <= c.maxDepth && m.mergeKeys < c.maxMergeKeys
    ensures var r := Eval(c, ONE_MERGE, 0, Ctx(map[], m));
      && r.Ok?
      && r.value.1.meter == m.(
           events := m.events + 4, nodes := m.nodes + 3, scalarBytes := m.scalarBytes + 2, mergeKeys := m.mergeKeys + 1)
  {
    var ctx := Open(c, Ctx(map[], m), MappingStart(None), 0).value;
    assert Open(c, Ctx(map[], m), MappingStart(None), 0) == Ok(ctx);
    assert ctx.meter == m.(events := m.events + 1, nodes := m.nodes + 1);
    OnePairIsRead(c, ctx);
    OnePairIsCharged(c, ctx);
    var (es, ctx1) := EvalPair(c, ONE_PAIR, [], 1, ctx).value;
    MappingIsClosed(c, ONE_MERGE.pairs, Ctx(map[], m), ctx, es, ctx1);
  }

  lemma MappingIsClosed(c: Config, pairs: seq<Pair>, ctx: Ctx, start: Ctx, es: seq<Entry>, ctx1: Ctx)
    requires Open(c, ctx, MappingStart(None), 0) == Ok(start) && EvalPairs(c, pairs, 1, start) == Ok((es, ctx1))
    requires ctx1.meter.events < c.maxEvents
    ensures Eval(c, MappingNode(None, pairs), 0, ctx)
      == Ok((Mapping(es), ctx1.(meter := ctx1.meter.(events := ctx1.meter.events + 1))))
  {
    var m := ctx1.meter;
    assert ChargeEvent(c, m, MappingEnd) == Ok(m.(events := m.events + 1));
    var end := ctx1.(meter := m.(events := m.events + 1));
    assert Close(c, ctx1, MappingEnd, None, Mapping(es)) == Ok((Mapping(es), end));
  }

  lemma OneMergeIsCharged(c: Config, m: Meter)
    requires Roomy(c, m) && m.mergeKeys < c.maxMergeKeys
    ensures var r := ReadDocument(c, ONE_MERGE, m); r.Ok? && r.value.1 == AfterOneMerge(m)
  {
    OneMergeIsRead(c, ChargeEvent(c, m, DocumentStart).value);
  }

  lemma OneMergeIsRefused(c: Config, m: Meter)
    requires Roomy(c, m) && m.mergeKeys == c.maxMergeKeys < USIZE_MAX
    ensures ReadDocument(c, ONE_MERGE, m) == Err(Budget(MaxMergeKeys(c.maxMergeKeys, c.maxMergeKeys + 1)))
  {
    var m1 := ChargeEvent(c, m, DocumentStart).value;
    var ctx := Open(c, Ctx(map[], m1), MappingStart(None), 0).value;
    OnePairIsRead(c, ctx);
    OnePairIsCharged(c, ctx);
  }

  /**
    * With `max_merge_keys` at one, a document with one merge key loads alone, and twice in one
    * stream is refused, though no document of the stream has more than one.
    */
  lemma SecondDocumentIsRefused(c: Config)
    requires c.maxMergeKeys == 1 && Roomy(c, FRESH) && c.maxDocuments >= 2
    requires c.maxEvents >= 30 && c.maxNodes >= 30 && c.maxTotalScalarBytes >= 30
    ensures Run(StepOf(c), START, SpellStream([ONE_MERGE])).Ok?
    ensures Run(StepOf(c), START, SpellStream([ONE_MERGE, ONE_MERGE])) == Err(Budget(MaxMergeKeys(1, 2)))
  {
    var one, two := [ONE_MERGE], [ONE_MERGE, ONE_MERGE];
    assert Front(one) == [] && Front(two) == one;
    var m0 := ChargeEvent(c, FRESH, StreamStart).value;
    assert EvalStream(c, Front(one)) == Ok((None, m0));
    OneMergeIsCharged(c, m0);
    var m1 := ReadDocument(c, ONE_MERGE, m0).value.1;
    assert EvalStream(c, one).Ok? && EvalStream(c, one).value.1 == m1;
    OneMergeIsRefused(c, m1);
    MachineReadsStream(c, StepOf(c), one);
    MachineReadsStream(c, StepOf(c), two);
  }
}
