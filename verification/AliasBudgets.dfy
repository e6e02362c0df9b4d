/** When an alias is refused for what the stream and the document have used so far. */
module AliasBudgets {
  import opened Common
  import opened Errors
  import opened Events
  import opened Limits
  import opened Metering
  import opened Tree
  import opened Machine
  import opened Syntax
  import opened Evaluation
  import opened Carryover
  import Counting
  import Invariants

  /** The totals once the alias has been read, what it would be nested under, and whether its name is bound. */
  datatype Totals = Totals(
    events: usize, aliases: usize, anchors: usize, bound: bool, below: usize, bytes: usize, jumps: usize)

  ghost function TotalsOf(c: Config, step: Stepper, events: seq<Event>, name: string): Totals
    requires Run(step, START, events).Ok?
  {
    var all := events + [Alias(name)];
    Totals(
      Sat(|all|), Sat(Counting.AliasesOfDocument(all)), Sat(Counting.AnchorsOf(all)),
      name in Run(step, START, events).value.anchors,
      SatAdd(|SlotsOf(events)|, CostAt(step, all).height),
      Sat(AliasBytesOfDocument(c, step, all)), Sat(JumpsOf(step, all)))
  }

  /** The refusals that the totals decide, in the order they are tested. */
  function Refusal(c: Config, all: Totals, name: string): Option<Error> {
    if all.aliases > c.maxAliasExpansions then Some(RepetitionLimitExceeded)
    else if c.aliasAnchorRatio.Some? && IsRatioPast(all, c.aliasAnchorRatio.value) then
      Some(Budget(AliasAnchorRatio(c.aliasAnchorRatio.value, all.anchors, all.aliases)))
    else if !all.bound then Some(UnknownAnchor(name))
    else if all.below > 256 || all.below > c.maxDepth then Some(RecursionLimitExceeded(all.below))
    else if all.bytes > 32 * 1024 * 1024 || all.bytes > c.maxDocumentLength then Some(RepetitionLimitExceeded)
    else if c.aliasJumpEventFactor.Some? && all.jumps > all.events * c.aliasJumpEventFactor.value then
      Some(RepetitionLimitExceeded)
    else None
  }

  /** More aliases than `ratio` for each anchor; none counts as one. */
  predicate IsRatioPast(all: Totals, ratio: real) {
    all.aliases as real > if all.anchors == 0 then ratio else ratio * all.anchors as real
  }

  /** A value that does not fit where it stands: none of the refusals above. */
  predicate IsMisplaced(e: Error) {
    || e.NonScalarAliasKey?
    || e.DuplicateKey?
    || (e.Budget? && (e.breach.MaxSequenceLength? || e.breach.MaxMappingKeys?))
  }

  /** `r` is refused as `refusal` says, or at most for where the value stands. */
  ghost predicate Refused<T>(refusal: Option<Error>, r: Result<T, Error>) {
    if refusal.Some? then r == Err(refusal.value) else r.Err? ==> IsMisplaced(r.error)
  }

  /** The totals are what the meter and the state would come to. */
  ghost predicate Next(c: Config, s: State, name: string, all: Totals) {
    && all.events == SatAdd(s.meter.events, 1)
    && all.aliases == SatAdd(s.meter.aliases, 1)
    && all.anchors == s.meter.anchors
    && all.bound == (name in s.anchors)
    && (all.bound ==>
      && all.below == SatAdd(s.depth, s.anchors[name].cost.height)
      && all.bytes == SatAdd(s.meter.aliasBytes, s.anchors[name].cost.Bytes(c))
      && (c.aliasJumpEventFactor.Some? ==> all.jumps == SatAdd(s.meter.jumpCharge, s.anchors[name].cost.jump)))
  }

  lemma PlacingRefuses(c: Config, s: State, v: Value)
    ensures var r := PushValue(c, s, v); r.Err? ==> IsMisplaced(r.error)
  {
  }

  lemma StepRefuses(c: Config, s: State, name: string, all: Totals)
    requires Next(c, s, name, all) && all.events <= c.maxEvents
    ensures Refused(Refusal(c, all, name), Step(c, s, Alias(name)))
  {
    var s1 := s.(meter := s.meter.(events := all.events));
    assert ChargeEvent(c, s.meter, Alias(name)) == Ok(s1.meter);
    var m1 := ChargeAlias(c, s1.meter);
    if m1.Ok? && all.bound {
      var m2 := ChargeExpansion(c, m1.value, s.anchors[name].cost, s.depth);
      if m2.Ok? {
        PlacingRefuses(c, s1.(meter := m2.value), s.anchors[name].value);
      }
    }
  }

  lemma NextCounts(m: Meter, events: seq<Event>, name: string, all: seq<Event>)
    requires Counting.Counted(m, events) && all == events + [Alias(name)]
    ensures Sat(|all|) == SatAdd(m.events, 1)
    ensures Sat(Counting.AliasesOfDocument(all)) == SatAdd(m.aliases, 1)
    ensures Sat(Counting.AnchorsOf(all)) == m.anchors
  {
    assert Front(all) == events && Last(all) == Alias(name);
  }

  lemma NextCosts(c: Config, step: Stepper, m: Meter, events: seq<Event>, name: string, all: seq<Event>)
    requires Carried(c, step, m, events) && all == events + [Alias(name)]
    ensures Sat(AliasBytesOfDocument(c, step, all)) == SatAdd(m.aliasBytes, CostAt(step, all).Bytes(c))
    ensures c.aliasJumpEventFactor.Some? ==> Sat(JumpsOf(step, all)) == SatAdd(m.jumpCharge, CostAt(step, all).jump)
  {
    assert Front(all) == events && Last(all) == Alias(name);
  }

  lemma NextTotals(c: Config, step: Stepper, events: seq<Event>, name: string)
    requires Steps(c, step) && Run(step, START, events).Ok?
    ensures Next(c, Run(step, START, events).value, name, TotalsOf(c, step, events, name))
  {
    var s, all := Run(step, START, events).value, events + [Alias(name)];
    Counting.RunCounts(c, step, events);
    RunCarries(c, step, events);
    NextCounts(s.meter, events, name, all);
    NextCosts(c, step, s.meter, events, name, all);
    DepthIsOpen(c, step, events);
    CostIsBound(step, events, name, all);
  }

  lemma CostIsBound(step: Stepper, events: seq<Event>, name: string, all: seq<Event>)
    requires Run(step, START, events).Ok? && all == events + [Alias(name)]
    ensures var anchors := Run(step, START, events).value.anchors;
      name in anchors ==> CostAt(step, all) == anchors[name].cost
  {
    assert Front(all) == events && Last(all) == Alias(name);
  }

  /** What an alias is charged is measured on the value its name is bound to. */
  lemma AliasIsChargedItsTree(c: Config, step: Stepper, events: seq<Event>, name: string)
    requires Steps(c, step) && Run(step, START, events).Ok? && name in Run(step, START, events).value.anchors
    ensures var v, cost := Run(step, START, events).value.anchors[name].value, CostAt(step, events + [Alias(name)]);
      && cost.height == Height(v)
      && cost.jump == Sat(Nodes(v))
      && cost.Bytes(c) == Sat(Nodes(v) * c.nodeBytes + Text(v))
  {
    var v := Run(step, START, events).value.anchors[name].value;
    Invariants.RunKeepsInv(c, step, START, events);
    CostIsBound(step, events, name, events + [Alias(name)]);
    BytesAreSaturated(Nodes(v), c.nodeBytes, Text(v));
  }

  lemma BytesAreSaturated(nodes: nat, each: nat, text: nat)
    ensures SatAdd(SatMul(Sat(nodes), each), Sat(text)) == Sat(nodes * each + text)
  {
    if nodes > USIZE_MAX && each > 0 {
      assert nodes * each >= nodes && USIZE_MAX * each >= USIZE_MAX;
    }
  }

  /** The depth is the number of collections the events have left open. */
  lemma DepthIsOpen(c: Config, step: Stepper, events: seq<Event>)
    requires Steps(c, step) && Run(step, START, events).Ok?
    ensures Run(step, START, events).value.depth == |SlotsOf(events)|
  {
    RunMovesSlots(c, step, events);
    Invariants.RunKeepsInv(c, step, START, events);
  }

  /**
    * Once the event itself is charged, an alias is refused if and only if one of its totals is
    * past its limit or its name is not bound, the first of these in the order of the tests; what
    * else can refuse it is the place it stands in.
    */
  lemma AliasBudgetsAreExact(c: Config, step: Stepper, events: seq<Event>, name: string)
    requires Steps(c, step) && Run(step, START, events).Ok? && Sat(|events| + 1) <= c.maxEvents
    ensures Refused(Refusal(c, TotalsOf(c, step, events, name), name), Run(step, START, events + [Alias(name)]))
  {
    var s, all := Run(step, START, events).value, events + [Alias(name)];
    NextTotals(c, step, events, name);
    assert Front(all) == events && Last(all) == Alias(name);
    assert step(s, Alias(name)) == Step(c, s, Alias(name));
    StepRefuses(c, s, name, TotalsOf(c, step, events, name));
  }

  // ----- the limit as documented: expansions of one anchor -----

  /** The aliases of one name since the last document start. */
  function UsesOfDocument(events: seq<Event>, name: string): nat {
    if events == [] || Last(events) == DocumentStart then 0
    else UsesOfDocument(Front(events), name) + if Last(events) == Alias(name) then 1 else 0
  }

  lemma {:induction false} UsesArePart(events: seq<Event>, name: string)
    ensures UsesOfDocument(events, name) <= Counting.AliasesOfDocument(events)
    decreases |events|
  {
    if events != [] {
      UsesArePart(Front(events), name);
    }
  }

  /**
    * For an alias that passes its other tests, the code's verdict is that of a limit on each
    * anchor by itself if and only if all the aliases of the document are within the limit
    * together, or those of this anchor alone are past it.
    */
  lemma AnchorVerdictsAgree(c: Config, step: Stepper, events: seq<Event>, name: string)
    requires Steps(c, step) && Run(step, START, events).Ok? && Sat(|events| + 1) <= c.maxEvents
    requires Refusal(c.(maxAliasExpansions := USIZE_MAX), TotalsOf(c, step, events, name), name).None?
    ensures var all := events + [Alias(name)];
      var r, uses := Run(step, START, all), Sat(UsesOfDocument(all, name));
      var aliases := Sat(Counting.AliasesOfDocument(all));
      (r != Err(RepetitionLimitExceeded) <==> uses <= c.maxAliasExpansions) <==>
        aliases <= c.maxAliasExpansions || uses > c.maxAliasExpansions
  {
    AliasBudgetsAreExact(c, step, events, name);
    UsesArePart(events + [Alias(name)], name);
  }

  // ----- the text that aliases repeat -----

  /** The text of the values that the aliases since the last document start stood for. */
  ghost function RepeatedText(step: Stepper, events: seq<Event>): nat {
    if events == [] || Last(events) == DocumentStart then 0
    else RepeatedText(step, Front(events)) + CostAt(step, events).text
  }

  lemma {:induction false} TextIsPaid(c: Config, step: Stepper, events: seq<Event>)
    requires Steps(c, step)
    ensures RepeatedText(step, events) <= AliasBytesOfDocument(c, step, events)
    decreases |events|
  {
    if events != [] {
      TextIsPaid(c, step, Front(events));
      CostIsPaid(c, step, events);
    }
  }

  lemma CostIsPaid(c: Config, step: Stepper, events: seq<Event>)
    requires Steps(c, step) && events != []
    ensures CostAt(step, events).text <= CostAt(step, events).Bytes(c)
  {
    if Run(step, START, Front(events)).Ok? {
      Invariants.RunKeepsInv(c, step, START, Front(events));
    }
  }

  lemma {:induction false} BytesStayAllowed(c: Config, step: Stepper, events: seq<Event>)
    requires Steps(c, step) && Run(step, START, events).Ok?
    ensures !AliasBytesExceeded(Sat(AliasBytesOfDocument(c, step, events)), c.maxDocumentLength)
    decreases |events|
  {
    if events != [] {
      BytesStayAllowed(c, step, Front(events));
      if Last(events).Alias? {
        assert events == Front(events) + [Alias(Last(events).anchor)];
        AliasIsAllowed(c, step, Front(events), Last(events).anchor, events);
      }
    }
  }

  lemma AliasIsAllowed(c: Config, step: Stepper, events: seq<Event>, name: string, all: seq<Event>)
    requires Steps(c, step) && Run(step, START, events).Ok? && all == events + [Alias(name)]
    requires Run(step, START, all).Ok?
    ensures !AliasBytesExceeded(Sat(AliasBytesOfDocument(c, step, all)), c.maxDocumentLength)
  {
    Counting.LoadedIsWithinLimits(c, step, all);
    AliasBudgetsAreExact(c, step, events, name);
  }

  /**
    * Of a run that loads, the text written is within `max_total_scalar_bytes`; the text that the
    * aliases of the document repeat is bounded by their byte allowance only.
    */
  lemma RepeatedTextIsBounded(c: Config, step: Stepper, events: seq<Event>)
    requires Steps(c, step) && Run(step, START, events).Ok?
    ensures Sat(Counting.TextRead(events)) <= c.maxTotalScalarBytes
    ensures RepeatedText(step, events) <= Min(c.maxDocumentLength, MAX_ALIAS_BYTES)
  {
    Counting.LoadedIsWithinLimits(c, step, events);
    BytesStayAllowed(c, step, events);
    TextIsPaid(c, step, events);
  }

  // ----- two anchors, each aliased once, under a limit of one -----

  const ANCHOR_A := ScalarNode("x", Quoted, Some("a"), None)
  const ANCHOR_B := ScalarNode("x", Quoted, Some("b"), None)
  const ONCE_EACH := SequenceNode(None, [ANCHOR_A, ANCHOR_B, AliasNode("a"), AliasNode("b")])

  const TEXT := String("x")
  const BOUND := Anchored(TEXT, AliasCost(1, 1, 0, 1))

  /** No limit but those of the aliases and of the text is near. */
  ghost predicate Roomy(c: Config, m: Meter, room: nat) {
    && m.events + room <= c.maxEvents && m.nodes + room <= c.maxNodes && m.anchors + room <= USIZE_MAX
    && m.aliases == 0 && m.aliasBytes == 0
    && 1 <= c.maxDepth && 4 <= c.maxSequenceLength
    && c.nodeBytes < c.maxDocumentLength && c.nodeBytes < MAX_ALIAS_BYTES
    && c.aliasAnchorRatio.None? && c.aliasJumpEventFactor.None?
  }

  function AfterAnchor(ctx: Ctx, name: string): Ctx {
    Ctx(
      ctx.anchors[name := BOUND],
      ctx.meter.(
        events := ctx.meter.events + 1, nodes := ctx.meter.nodes + 1, anchors := ctx.meter.anchors + 1,
          scalarBytes := ctx.meter.scalarBytes + 1))
  }

  function AfterAlias(c: Config, ctx: Ctx): Ctx {
    ctx.(meter := ctx.meter.(events := ctx.meter.events + 1, aliases := 1, aliasBytes := c.nodeBytes + 1))
  }

  lemma AnchorIsRead(c: Config, name: string, ctx: Ctx)
    requires ctx.meter.events < c.maxEvents && ctx.meter.nodes < c.maxNodes && ctx.meter.anchors < USIZE_MAX
    requires ctx.meter.scalarBytes < c.maxTotalScalarBytes
    ensures Eval(c, ScalarNode("x", Quoted, Some(name), None), 1, ctx) == Ok((TEXT, AfterAnchor(ctx, name)))
  {
    assert Utf8Len("x") == 1 && Measure(TEXT) == AliasCost(1, 1, 0, 1);
  }

  lemma FirstAliasIsRead(c: Config, name: string, ctx: Ctx)
    requires Roomy(c, ctx.meter, 1)
    requires name in ctx.anchors && ctx.anchors[name] == BOUND && 1 <= c.maxAliasExpansions
    ensures Eval(c, AliasNode(name), 1, ctx) == Ok((TEXT, AfterAlias(c, ctx)))
  {
  }

  lemma SecondAliasIsRefused(c: Config, name: string, ctx: Ctx)
    requires ctx.meter.events < c.maxEvents && ctx.meter.aliases == 1 == c.maxAliasExpansions
    ensures Eval(c, AliasNode(name), 1, ctx) == Err(RepetitionLimitExceeded)
  {
  }

  lemma OneMoreItem(
      c: Config, items: seq<Node>, n: Node, all: seq<Node>, vs: seq<Value>, ctx: Ctx, ctx1: Ctx,
      grown: seq<Value>, ctx2: Ctx)
    requires all == items + [n] && EvalItems(c, items, 1, ctx) == Ok((vs, ctx1)) && |vs| < c.maxSequenceLength
    requires Eval(c, n, 1, ctx1) == Ok((TEXT, ctx2)) && grown == vs + [TEXT]
    ensures EvalItems(c, all, 1, ctx) == Ok((grown, ctx2))
  {
    assert Front(all) == items && Last(all) == n;
  }

  lemma ItemIsRefused(
      c: Config, items: seq<Node>, n: Node, all: seq<Node>, vs: seq<Value>, ctx: Ctx, ctx1: Ctx, e: Error)
    requires all == items + [n] && EvalItems(c, items, 1, ctx) == Ok((vs, ctx1))
    requires Eval(c, n, 1, ctx1) == Err(e)
    ensures EvalItems(c, all, 1, ctx) == Err(e)
  {
    assert Front(all) == items && Last(all) == n;
  }

  lemma AnchorsAreRead(c: Config, ctx: Ctx, ctx1: Ctx)
    requires Roomy(c, ctx.meter, 2) && ctx1 == AfterAnchor(ctx, "a")
    requires ctx.meter.scalarBytes + 2 <= c.maxTotalScalarBytes
    ensures EvalItems(c, [ANCHOR_A, ANCHOR_B], 1, ctx) == Ok(([TEXT, TEXT], AfterAnchor(ctx1, "b")))
  {
    assert EvalItems(c, [], 1, ctx) == Ok(([], ctx));
    AnchorIsRead(c, "a", ctx);
    OneMoreItem(c, [], ANCHOR_A, [ANCHOR_A], [], ctx, ctx, [TEXT], ctx1);
    AnchorIsRead(c, "b", ctx1);
    OneMoreItem(c, [ANCHOR_A], ANCHOR_B, [ANCHOR_A, ANCHOR_B], [TEXT], ctx, ctx1, [TEXT, TEXT], AfterAnchor(ctx1, "b"));
  }

  lemma AliasesAreRead(c: Config, anchors: seq<Node>, items: seq<Node>, ctx: Ctx, ctx2: Ctx)
    requires Roomy(c, ctx2.meter, 2) && c.maxAliasExpansions == 1
    requires EvalItems(c, anchors, 1, ctx) == Ok(([TEXT, TEXT], ctx2))
    requires "a" in ctx2.anchors && ctx2.anchors["a"] == BOUND
    requires items == anchors + [AliasNode("a"), AliasNode("b")]
    ensures EvalItems(c, items, 1, ctx) == Err(RepetitionLimitExceeded)
  {
    var three, ctx3 := anchors + [AliasNode("a")], AfterAlias(c, ctx2);
    FirstAliasIsRead(c, "a", ctx2);
    OneMoreItem(c, anchors, AliasNode("a"), three, [TEXT, TEXT], ctx, ctx2, [TEXT, TEXT, TEXT], ctx3);
    SecondAliasIsRefused(c, "b", ctx3);
    ItemIsRefused(c, three, AliasNode("b"), items, [TEXT, TEXT, TEXT], ctx, ctx3, RepetitionLimitExceeded);
  }

  lemma OnceEachIsSpelled(events: seq<Event>)
    requires events == [
      SequenceStart(None), Scalar("x", Quoted, Some("a"), None), Scalar("x", Quoted, Some("b"), None),
      Alias("a"), Alias("b"), SequenceEnd]
    ensures Spell(ONCE_EACH) == events
  {
    var items := ONCE_EACH.items;
    assert Front(items) == items[..3] && Front(items[..3]) == items[..2];
    assert Front(items[..2]) == items[..1] && Front(items[..1]) == [];
    assert SpellAll(items[..1]) == events[1..2];
    assert SpellAll(items[..2]) == events[1..3];
    assert SpellAll(items[..3]) == events[1..4];
    assert SpellAll(items) == events[1..5];
    assert [SequenceStart(None)] + events[1..5] + [SequenceEnd] == events;
  }

  lemma UsedOnce(name: string)
    ensures UsesOfDocument(Spell(ONCE_EACH), name) <= 1
  {
    var events := [
      SequenceStart(None), Scalar("x", Quoted, Some("a"), None), Scalar("x", Quoted, Some("b"), None),
      Alias("a"), Alias("b"), SequenceEnd];
    OnceEachIsSpelled(events);
    NoUses(events[..3], name);
    OneMoreUse(events[..3], Alias("a"), events[..4], name);
    OneMoreUse(events[..4], Alias("b"), events[..5], name);
    OneMoreUse(events[..5], SequenceEnd, events, name);
  }

  lemma OneMoreUse(events: seq<Event>, e: Event, all: seq<Event>, name: string)
    requires all == events + [e] && e != DocumentStart
    ensures UsesOfDocument(all, name) == UsesOfDocument(events, name) + if e == Alias(name) then 1 else 0
  {
    assert Front(all) == events && Last(all) == e;
  }

  lemma {:induction false} NoUses(events: seq<Event>, name: string)
    requires forall i :: 0 <= i < |events| ==> !events[i].Alias?
    ensures UsesOfDocument(events, name) == 0
  {
    if events != [] {
      NoUses(Front(events), name);
    }
  }

  /**
    * With `max_alias_expansions` at one, a document that aliases each of two anchors once is
    * refused, though neither is expanded more than once.
    */
  lemma OnceEachIsRefused(c: Config, ctx: Ctx)
    requires Roomy(c, ctx.meter, 5) && c.maxAliasExpansions == 1
    requires ctx.meter.scalarBytes + 2 <= c.maxTotalScalarBytes
    ensures Eval(c, ONCE_EACH, 0, ctx) == Err(RepetitionLimitExceeded)
    ensures forall name :: UsesOfDocument(Spell(ONCE_EACH), name) <= 1
  {
    var start := ctx.(meter := ctx.meter.(events := ctx.meter.events + 1, nodes := ctx.meter.nodes + 1));
    var ctx1 := AfterAnchor(start, "a");
    assert Open(c, ctx, SequenceStart(None), 0) == Ok(start);
    AnchorsAreRead(c, start, ctx1);
    AliasesAreRead(c, [ANCHOR_A, ANCHOR_B], ONCE_EACH.items, start, AfterAnchor(ctx1, "b"));
    forall name ensures UsesOfDocument(Spell(ONCE_EACH), name) <= 1 {
      UsedOnce(name);
    }
  }

  // ----- one byte of text, repeated by an alias, under a limit of one -----

  const TWICE_X := SequenceNode(None, [ANCHOR_A, AliasNode("a")])

  lemma TwiceXIsRead(c: Config, ctx: Ctx, ctx1: Ctx)
    requires Roomy(c, ctx.meter, 3) && c.maxAliasExpansions >= 1 && ctx1 == AfterAnchor(ctx, "a")
    requires ctx.meter.scalarBytes < c.maxTotalScalarBytes
    ensures EvalItems(c, [ANCHOR_A, AliasNode("a")], 1, ctx) == Ok(([TEXT, TEXT], AfterAlias(c, ctx1)))
  {
    assert EvalItems(c, [], 1, ctx) == Ok(([], ctx));
    AnchorIsRead(c, "a", ctx);
    OneMoreItem(c, [], ANCHOR_A, [ANCHOR_A], [], ctx, ctx, [TEXT], ctx1);
    FirstAliasIsRead(c, "a", ctx1);
    OneMoreItem(
      c, [ANCHOR_A], AliasNode("a"), [ANCHOR_A, AliasNode("a")], [TEXT], ctx, ctx1, [TEXT, TEXT], AfterAlias(c, ctx1));
  }

  /**
    * With `max_total_scalar_bytes` at one, a document of one byte of text loads that has two
    * bytes of text once its alias is expanded.
    */
  lemma ExpandedTextLoads(c: Config, ctx: Ctx)
    requires Roomy(c, ctx.meter, 5) && c.maxAliasExpansions >= 1
    requires c.maxTotalScalarBytes == 1 && ctx.meter.scalarBytes == 0
    ensures var r := Eval(c, TWICE_X, 0, ctx); r.Ok? && Text(r.value.0) == 2
  {
    var start := ctx.(meter := ctx.meter.(events := ctx.meter.events + 1, nodes := ctx.meter.nodes + 1));
    var ctx1 := AfterAnchor(start, "a");
    assert Open(c, ctx, SequenceStart(None), 0) == Ok(start);
    TwiceXIsRead(c, start, ctx1);
    SequenceIsClosed(c, TWICE_X.items, ctx, start, [TEXT, TEXT], AfterAlias(c, ctx1));
    TextOfTwo([TEXT, TEXT]);
  }

  lemma SequenceIsClosed(c: Config, items: seq<Node>, ctx: Ctx, start: Ctx, vs: seq<Value>, ctx1: Ctx)
    requires Open(c, ctx, SequenceStart(None), 0) == Ok(start) && EvalItems(c, items, 1, start) == Ok((vs, ctx1))
    requires ctx1.meter.events < c.maxEvents
    ensures var r := Eval(c, SequenceNode(None, items), 0, ctx); r.Ok? && r.value.0 == Sequence(vs)
  {
  }

  lemma TextOfTwo(items: seq<Value>)
    requires items == [TEXT, TEXT]
    ensures TextAll(items) == 2
  {
    assert Utf8Len("x") == 1 && Text(TEXT) == 1;
    assert Front(items) == [TEXT] && Front([TEXT]) == [];
    assert TextAll([]) == 0;
    assert TextAll([TEXT]) == 1;
  }
}
