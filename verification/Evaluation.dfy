/** The recursive reading of a document: no stack, one anchor environment threaded through. */
module Evaluation {
  import opened Common
  import opened Errors
  import opened Events
  import opened Limits
  import opened Metering
  import opened Tree
  import opened Machine
  import opened Syntax

  /** What evaluation threads: the anchors defined so far and the budget already charged. */
  datatype Ctx = Ctx(anchors: map<string, Anchored>, meter: Meter)

  function Charge(c: Config, ctx: Ctx, e: Event): Result<Ctx, Error> {
    var m :- ChargeEvent(c, ctx.meter, e);
    Ok(ctx.(meter := m))
  }

  function Define(ctx: Ctx, name: Option<string>, v: Value): Ctx {
    ctx.(anchors := Record(ctx.anchors, name, v))
  }

  /** The referent of an alias standing `depth` collections deep. */
  function Dereference(c: Config, ctx0: Ctx, target: string, depth: nat): Result<(Value, Ctx), Error> {
    var ctx :- Charge(c, ctx0, Alias(target));
    var m1 :- ChargeAlias(c, ctx.meter);
    if target !in ctx.anchors then Err(UnknownAnchor(target))
    else
      var m2 :- ChargeExpansion(c, m1, ctx.anchors[target].cost, depth);
      Ok((ctx.anchors[target].value, ctx.(meter := m2)))
  }

  function Open(c: Config, ctx: Ctx, e: Event, depth: nat): Result<Ctx, Error> {
    var ctx1 :- Charge(c, ctx, e);
    if DepthExceeded(depth + 1, c.maxDepth) then Err(RecursionLimitExceeded(depth + 1)) else Ok(ctx1)
  }

  /** A collection's anchor is defined only once the collection is complete. */
  function Close(c: Config, ctx: Ctx, e: Event, name: Option<string>, v: Value): Result<(Value, Ctx), Error> {
    var ctx1 :- Charge(c, ctx, e);
    Ok((v, Define(ctx1, name, v)))
  }

  function Eval(c: Config, n: Node, depth: nat, ctx: Ctx): Result<(Value, Ctx), Error>
    decreases n
  {
    match n
    case ScalarNode(text, style, name, tag) =>
      var ctx1 :- Charge(c, ctx, Scalar(text, style, name, tag));
      var v := ResolveScalar(c.rules, text, style, tag);
      Ok((v, Define(ctx1, name, v)))
    case AliasNode(target) => Dereference(c, ctx, target, depth)
    case SequenceNode(name, items) =>
      var ctx1 :- Open(c, ctx, SequenceStart(name), depth);
      var (vs, ctx2) :- EvalItems(c, items, depth + 1, ctx1);
      Close(c, ctx2, SequenceEnd, name, Sequence(vs))
    case MappingNode(name, pairs) =>
      var ctx1 :- Open(c, ctx, MappingStart(name), depth);
      var (es, ctx2) :- EvalPairs(c, pairs, depth + 1, ctx1);
      Close(c, ctx2, MappingEnd, name, Mapping(es))
  }

  function EvalItems(c: Config, items: seq<Node>, depth: nat, ctx: Ctx): Result<(seq<Value>, Ctx), Error>
    decreases items
  {
    if items == [] then Ok(([], ctx))
    else
      var (vs, ctx1) :- EvalItems(c, Front(items), depth, ctx);
      var (v, ctx2) :- Eval(c, Last(items), depth, ctx1);
      var grown :- PushItem(c, vs, v);
      Ok((grown, ctx2))
  }

  function EvalPairs(c: Config, pairs: seq<Pair>, depth: nat, ctx: Ctx): Result<(seq<Entry>, Ctx), Error>
    decreases pairs
  {
    if pairs == [] then Ok(([], ctx))
    else
      var (es, ctx1) :- EvalPairs(c, Front(pairs), depth, ctx);
      EvalPair(c, Last(pairs), es, depth, ctx1)
  }

  function EvalPair(c: Config, pair: Pair, es: seq<Entry>, depth: nat, ctx: Ctx): Result<(seq<Entry>, Ctx), Error>
    decreases pair
  {
    var (key, ctx1) :- EvalKey(c, pair.key, depth, ctx);
    var (v, ctx2) :- Eval(c, pair.value, depth, ctx1);
    var grown :- InsertEntry(c, es, key, v);
    Ok((grown, ctx2))
  }

  /** A scalar key is its text and defines no anchor; an alias key is the text of a scalar referent. */
  function EvalKey(c: Config, k: Key, depth: nat, ctx: Ctx): Result<(string, Ctx), Error> {
    match k
    case ScalarKey(text, style, name, tag) =>
      var ctx1 :- Charge(c, ctx, KeyEvent(k));
      if style == Plain && text == MERGE_KEY then
        var m :- ChargeMergePolicy(c, ctx1.meter);
        Ok((text, ctx1.(meter := m)))
      else Ok((text, ctx1))
    case KeyAlias(target) =>
      var (v, ctx1) :- Dereference(c, ctx, target, depth);
      var key :- AliasKey(c.rules, v);
      Ok((key, ctx1))
  }

  /** One document of a stream: it starts with no anchors. */
  function ReadDocument(c: Config, doc: Node, m: Meter): Result<(Value, Meter), Error> {
    var m1 :- ChargeEvent(c, m, DocumentStart);
    var (v, ctx) :- Eval(c, doc, 0, Ctx(map[], m1));
    var m2 :- ChargeEvent(c, ctx.meter, DocumentEnd);
    Ok((v, m2))
  }

  /** A stream: the last root is the value. */
  function EvalStream(c: Config, docs: seq<Node>): Result<(Option<Value>, Meter), Error> {
    if docs == [] then
      var m :- ChargeEvent(c, FRESH, StreamStart);
      Ok((None, m))
    else
      var (_, m) :- EvalStream(c, Front(docs));
      var (v, m1) :- ReadDocument(c, Last(docs), m);
      Ok((Some(v), m1))
  }

  // ----- the machine computes the recursive reading -----

  function CtxOf(s: State): Ctx { Ctx(s.anchors, s.meter) }

  function With(s: State, ctx: Ctx): State { s.(anchors := ctx.anchors, meter := ctx.meter) }

  /** `s` with its top frame replaced and the context of `ctx`. */
  function Grown(s: State, top: Frame, ctx: Ctx): State
    requires s.stack != []
  {
    With(s, ctx).(stack := Replace(s.stack, top))
  }

  lemma RunOne(step: Stepper, s: State, e: Event)
    ensures Run(step, s, [e]) == step(s, e)
  {
    assert Front([e]) == [];
  }

  lemma RunWrapped(step: Stepper, s: State, open: Event, body: seq<Event>, close: Event)
    ensures Run(step, s, [open] + body + [close]) == RunOn(step, RunOn(step, step(s, open), body), [close])
  {
    RunAppend(step, s, [open] + body, [close]);
    RunAppend(step, s, [open], body);
    RunOne(step, s, open);
  }

  /** What running a node's events from a value position must give. */
  ghost function Reading(c: Config, s: State, r: Result<(Value, Ctx), Error>): Result<State, Error> {
    if r.Err? then Err(r.error) else PushValue(c, With(s, r.value.1), r.value.0)
  }

  /** What running the items of a sequence opened by `top` must leave on the stack. */
  ghost function ReadingItems(s: State, r: Result<(seq<Value>, Ctx), Error>): Result<State, Error>
    requires s.stack != []
  {
    if r.Err? then Err(r.error) else Ok(Grown(s, SequenceFrame(r.value.0, Last(s.stack).name), r.value.1))
  }

  ghost function ReadingPairs(s: State, r: Result<(seq<Entry>, Ctx), Error>): Result<State, Error>
    requires s.stack != []
  {
    if r.Err? then Err(r.error) else Ok(Grown(s, KeyFrame(r.value.0, Last(s.stack).name), r.value.1))
  }

  lemma Regrown(s: State, top: Frame, ctx: Ctx, next: Frame, ctx1: Ctx)
    requires s.stack != []
    ensures Grown(Grown(s, top, ctx), next, ctx1) == Grown(s, next, ctx1)
  {
    assert Front(Replace(s.stack, top)) == Front(s.stack);
  }

  /**
    * The explicit-stack machine refines the recursive reading: from any state with no key
    * pending, the events of a node do what evaluating the node and placing its value does,
    * with the same refusal when there is one.
    */
  lemma {:induction false} MachineReadsNode(c: Config, step: Stepper, s: State, n: Node)
    requires Steps(c, step)
    requires !AtKey(s)
    ensures Run(step, s, Spell(n)) == Reading(c, s, Eval(c, n, s.depth, CtxOf(s)))
    decreases n, 1
  {
    match n
    case ScalarNode(text, style, name, tag) => ReadsLeaf(c, step, s, n, Scalar(text, style, name, tag));
    case AliasNode(target) => ReadsLeaf(c, step, s, n, Alias(target));
    case SequenceNode(name, items) => MachineReadsSequence(c, step, s, name, items);
    case MappingNode(name, pairs) => MachineReadsMapping(c, step, s, name, pairs);
  }

  lemma ReadsLeaf(c: Config, step: Stepper, s: State, n: Node, e: Event)
    requires Steps(c, step) && !AtKey(s)
    requires (n.ScalarNode? || n.AliasNode?) && Spell(n) == [e]
    ensures Run(step, s, Spell(n)) == Reading(c, s, Eval(c, n, s.depth, CtxOf(s)))
  {
    RunOne(step, s, e);
    assert step(s, e) == Step(c, s, e);
  }

  /** The state inside a collection just opened on `s`. */
  ghost function Inside(s: State, frame: Frame, ctx: Ctx): State {
    With(s, ctx).(stack := s.stack + [frame], depth := s.depth + 1)
  }

  lemma Opening(c: Config, step: Stepper, s: State, open: Event, frame: Frame)
    requires Steps(c, step)
    requires match open
             case SequenceStart(name) => frame == SequenceFrame([], name)
             case MappingStart(name) => frame == KeyFrame([], name)
             case _ => false
    ensures step(s, open) ==
      match Open(c, CtxOf(s), open, s.depth) case Err(e) => Err(e) case Ok(ctx) => Ok(Inside(s, frame, ctx))
  {
    assert step(s, open) == Step(c, s, open);
  }

  /** Once the body has grown the frame to `top`, the close places its value in `s`. */
  lemma Closing(c: Config, step: Stepper, s: State, top: Frame, ctx: Ctx, close: Event)
    requires Steps(c, step)
    requires close == SequenceEnd || close == MappingEnd
    ensures step(Inside(s, top, ctx), close) == Reading(c, s, Close(c, ctx, close, top.name, Closed(top)))
  {
    assert Front(s.stack + [top]) == s.stack;
    assert step(Inside(s, top, ctx), close) == Step(c, Inside(s, top, ctx), close);
  }

  /** What a collection's body leaves on the stack opened on `s`, as a grown frame. */
  ghost function InsideRun(s: State, r: Result<(Frame, Ctx), Error>): Result<State, Error> {
    if r.Err? then Err(r.error) else Ok(Inside(s, r.value.0, r.value.1))
  }

  /** Evaluating a collection from the outcomes of its opening and of its body. */
  ghost function Assembled(
      c: Config, start: Result<Ctx, Error>, r: Result<(Frame, Ctx), Error>, close: Event): Result<(Value, Ctx), Error>
  {
    if start.Err? then Err(start.error)
    else if r.Err? then Err(r.error)
    else Close(c, r.value.1, close, r.value.0.name, Closed(r.value.0))
  }

  ghost function SequenceBody(r: Result<(seq<Value>, Ctx), Error>, name: Option<string>): Result<(Frame, Ctx), Error> {
    if r.Err? then Err(r.error) else Ok((SequenceFrame(r.value.0, name), r.value.1))
  }

  ghost function MappingBody(r: Result<(seq<Entry>, Ctx), Error>, name: Option<string>): Result<(Frame, Ctx), Error> {
    if r.Err? then Err(r.error) else Ok((KeyFrame(r.value.0, name), r.value.1))
  }

  lemma MachineReadsCollection(c: Config, step: Stepper, s: State, open: Event, frame: Frame, body: seq<Event>,
                               start: Result<Ctx, Error>, r: Result<(Frame, Ctx), Error>, close: Event)
    requires Steps(c, step)
    requires close == SequenceEnd || close == MappingEnd
    requires step(s, open) == if start.Err? then Err(start.error) else Ok(Inside(s, frame, start.value))
    requires start.Ok? ==> Run(step, Inside(s, frame, start.value), body) == InsideRun(s, r)
    ensures Run(step, s, [open] + body + [close]) == Reading(c, s, Assembled(c, start, r, close))
  {
    RunWrapped(step, s, open, body, close);
    if start.Ok? && r.Ok? {
      var (top, ctx) := r.value;
      RunOne(step, Inside(s, top, ctx), close);
      Closing(c, step, s, top, ctx, close);
    }
  }

  lemma SequenceIsAssembled(
      c: Config, name: Option<string>, items: seq<Node>, depth: nat, ctx: Ctx,
      start: Result<Ctx, Error>, r: Result<(Frame, Ctx), Error>)
    requires start == Open(c, ctx, SequenceStart(name), depth)
    requires start.Ok? ==> r == SequenceBody(EvalItems(c, items, depth + 1, start.value), name)
    ensures Eval(c, SequenceNode(name, items), depth, ctx) == Assembled(c, start, r, SequenceEnd)
  {
  }

  lemma MappingIsAssembled(
      c: Config, name: Option<string>, pairs: seq<Pair>, depth: nat, ctx: Ctx,
      start: Result<Ctx, Error>, r: Result<(Frame, Ctx), Error>)
    requires start == Open(c, ctx, MappingStart(name), depth)
    requires start.Ok? ==> r == MappingBody(EvalPairs(c, pairs, depth + 1, start.value), name)
    ensures Eval(c, MappingNode(name, pairs), depth, ctx) == Assembled(c, start, r, MappingEnd)
  {
  }

  lemma RegrownInside(s: State, frame: Frame, start: Ctx, top: Frame, ctx: Ctx)
    ensures Grown(Inside(s, frame, start), top, ctx) == Inside(s, top, ctx)
  {
    assert Replace(s.stack + [frame], top) == s.stack + [top];
  }

  lemma {:induction false} MachineReadsSequence(
      c: Config, step: Stepper, s: State, name: Option<string>, items: seq<Node>)
    requires Steps(c, step)
    ensures Run(step, s, Spell(SequenceNode(name, items))) ==
      Reading(c, s, Eval(c, SequenceNode(name, items), s.depth, CtxOf(s)))
    decreases items, 1
  {
    var start, r := SequenceParts(c, step, s, name, items);
    MachineReadsCollection(
      c, step, s, SequenceStart(name), SequenceFrame([], name), SpellAll(items), start, r, SequenceEnd);
  }

  /** The opening of a sequence and the outcome of its body. */
  lemma {:induction false} SequenceParts(c: Config, step: Stepper, s: State, name: Option<string>, items: seq<Node>)
    returns (start: Result<Ctx, Error>, r: Result<(Frame, Ctx), Error>)
    requires Steps(c, step)
    ensures var frame := SequenceFrame([], name);
      && step(s, SequenceStart(name)) == (if start.Err? then Err(start.error) else Ok(Inside(s, frame, start.value)))
      && (start.Ok? ==> Run(step, Inside(s, frame, start.value), SpellAll(items)) == InsideRun(s, r))
    ensures Eval(c, SequenceNode(name, items), s.depth, CtxOf(s)) == Assembled(c, start, r, SequenceEnd)
    decreases items, 0, 3
  {
    var open := SequenceStart(name);
    start, r := Open(c, CtxOf(s), open, s.depth), Err(UnexpectedCollectionEnd);
    Opening(c, step, s, open, SequenceFrame([], name));
    if start.Ok? {
      r := InsideSequence(c, step, s, name, items, start.value);
    }
    SequenceIsAssembled(c, name, items, s.depth, CtxOf(s), start, r);
  }

  lemma {:induction false} InsideSequence(
      c: Config, step: Stepper, s: State, name: Option<string>, items: seq<Node>, start: Ctx)
    returns (r: Result<(Frame, Ctx), Error>)
    requires Steps(c, step)
    ensures r == SequenceBody(EvalItems(c, items, s.depth + 1, start), name)
    ensures Run(step, Inside(s, SequenceFrame([], name), start), SpellAll(items)) == InsideRun(s, r)
    decreases items, 0, 2
  {
    var evaluated := EvalItems(c, items, s.depth + 1, start);
    r := SequenceBody(evaluated, name);
    ItemsReadAt(c, step, Inside(s, SequenceFrame([], name), start), items, s.depth + 1, start);
    ItemsInside(s, name, start, evaluated);
  }

  /** The same, with the depth and the context named. */
  lemma {:induction false} ItemsReadAt(c: Config, step: Stepper, s: State, items: seq<Node>, depth: nat, ctx: Ctx)
    requires Steps(c, step) && depth == s.depth && ctx == CtxOf(s)
    requires s.stack != [] && Last(s.stack).SequenceFrame? && Last(s.stack).items == []
    ensures Run(step, s, SpellAll(items)) == ReadingItems(s, EvalItems(c, items, depth, ctx))
    decreases items, 0, 1
  {
    MachineReadsItems(c, step, s, items);
  }

  lemma {:induction false} PairsReadAt(c: Config, step: Stepper, s: State, pairs: seq<Pair>, depth: nat, ctx: Ctx)
    requires Steps(c, step) && depth == s.depth && ctx == CtxOf(s)
    requires s.stack != [] && Last(s.stack).KeyFrame? && Last(s.stack).entries == []
    ensures Run(step, s, SpellPairs(pairs)) == ReadingPairs(s, EvalPairs(c, pairs, depth, ctx))
    decreases pairs, 0, 1
  {
    MachineReadsPairs(c, step, s, pairs);
  }

  lemma ItemsInside(s: State, name: Option<string>, start: Ctx, r: Result<(seq<Value>, Ctx), Error>)
    ensures ReadingItems(Inside(s, SequenceFrame([], name), start), r) == InsideRun(s, SequenceBody(r, name))
  {
    if r.Ok? {
      RegrownInside(s, SequenceFrame([], name), start, SequenceFrame(r.value.0, name), r.value.1);
    }
  }

  lemma PairsInside(s: State, name: Option<string>, start: Ctx, r: Result<(seq<Entry>, Ctx), Error>)
    ensures ReadingPairs(Inside(s, KeyFrame([], name), start), r) == InsideRun(s, MappingBody(r, name))
  {
    if r.Ok? {
      RegrownInside(s, KeyFrame([], name), start, KeyFrame(r.value.0, name), r.value.1);
    }
  }

  lemma {:induction false} MachineReadsMapping(
      c: Config, step: Stepper, s: State, name: Option<string>, pairs: seq<Pair>)
    requires Steps(c, step)
    ensures Run(step, s, Spell(MappingNode(name, pairs))) ==
      Reading(c, s, Eval(c, MappingNode(name, pairs), s.depth, CtxOf(s)))
    decreases pairs, 1
  {
    var start, r := MappingParts(c, step, s, name, pairs);
    MachineReadsCollection(c, step, s, MappingStart(name), KeyFrame([], name), SpellPairs(pairs), start, r, MappingEnd);
  }

  /** The opening of a mapping and the outcome of its body. */
  lemma {:induction false} MappingParts(c: Config, step: Stepper, s: State, name: Option<string>, pairs: seq<Pair>)
    returns (start: Result<Ctx, Error>, r: Result<(Frame, Ctx), Error>)
    requires Steps(c, step)
    ensures var frame := KeyFrame([], name);
      && step(s, MappingStart(name)) == (if start.Err? then Err(start.error) else Ok(Inside(s, frame, start.value)))
      && (start.Ok? ==> Run(step, Inside(s, frame, start.value), SpellPairs(pairs)) == InsideRun(s, r))
    ensures Eval(c, MappingNode(name, pairs), s.depth, CtxOf(s)) == Assembled(c, start, r, MappingEnd)
    decreases pairs, 0, 3
  {
    var open := MappingStart(name);
    start, r := Open(c, CtxOf(s), open, s.depth), Err(UnexpectedCollectionEnd);
    Opening(c, step, s, open, KeyFrame([], name));
    if start.Ok? {
      r := InsideMapping(c, step, s, name, pairs, start.value);
    }
    MappingIsAssembled(c, name, pairs, s.depth, CtxOf(s), start, r);
  }

  lemma {:induction false} InsideMapping(
      c: Config, step: Stepper, s: State, name: Option<string>, pairs: seq<Pair>, start: Ctx)
    returns (r: Result<(Frame, Ctx), Error>)
    requires Steps(c, step)
    ensures r == MappingBody(EvalPairs(c, pairs, s.depth + 1, start), name)
    ensures Run(step, Inside(s, KeyFrame([], name), start), SpellPairs(pairs)) == InsideRun(s, r)
    decreases pairs, 0, 2
  {
    var evaluated := EvalPairs(c, pairs, s.depth + 1, start);
    r := MappingBody(evaluated, name);
    PairsReadAt(c, step, Inside(s, KeyFrame([], name), start), pairs, s.depth + 1, start);
    PairsInside(s, name, start, evaluated);
  }

  /** One more item on those read so far. */
  ghost function NextItem(c: Config, vs: seq<Value>, r: Result<(Value, Ctx), Error>): Result<(seq<Value>, Ctx), Error> {
    if r.Err? then Err(r.error)
    else
      var grown := PushItem(c, vs, r.value.0);
      if grown.Err? then Err(grown.error) else Ok((grown.value, r.value.1))
  }

  lemma ItemIsPlaced(c: Config, s: State, vs: seq<Value>, ctx: Ctx, r: Result<(Value, Ctx), Error>)
    requires s.stack != []
    ensures Reading(c, Grown(s, SequenceFrame(vs, Last(s.stack).name), ctx), r) == ReadingItems(s, NextItem(c, vs, r))
  {
    if r.Ok? {
      var frame, v := SequenceFrame(vs, Last(s.stack).name), r.value.0;
      Regrown(s, frame, ctx, SequenceFrame(vs + [v], frame.name), r.value.1);
    }
  }

  lemma {:induction false} MachineReadsItems(c: Config, step: Stepper, s: State, items: seq<Node>)
    requires Steps(c, step)
    requires s.stack != [] && Last(s.stack).SequenceFrame? && Last(s.stack).items == []
    ensures Run(step, s, SpellAll(items)) == ReadingItems(s, EvalItems(c, items, s.depth, CtxOf(s)))
    decreases items, 0, 0
  {
    if items == [] {
      assert Replace(s.stack, Last(s.stack)) == s.stack;
    } else {
      MachineReadsItems(c, step, s, Front(items));
      RunAppend(step, s, SpellAll(Front(items)), Spell(Last(items)));
      var before := EvalItems(c, Front(items), s.depth, CtxOf(s));
      if before.Ok? {
        var (vs, ctx) := before.value;
        MachineReadsNode(c, step, Grown(s, SequenceFrame(vs, Last(s.stack).name), ctx), Last(items));
        ItemIsPlaced(c, s, vs, ctx, Eval(c, Last(items), s.depth, ctx));
      }
    }
  }

  lemma {:induction false} MachineReadsPairs(c: Config, step: Stepper, s: State, pairs: seq<Pair>)
    requires Steps(c, step)
    requires s.stack != [] && Last(s.stack).KeyFrame? && Last(s.stack).entries == []
    ensures Run(step, s, SpellPairs(pairs)) == ReadingPairs(s, EvalPairs(c, pairs, s.depth, CtxOf(s)))
    decreases pairs, 0, 0
  {
    if pairs == [] {
      assert Replace(s.stack, Last(s.stack)) == s.stack;
    } else {
      MachineReadsPairs(c, step, s, Front(pairs));
      RunAppend(step, s, SpellPairs(Front(pairs)), SpellPair(Last(pairs)));
      var before := EvalPairs(c, Front(pairs), s.depth, CtxOf(s));
      if before.Ok? {
        var (es, ctx) := before.value;
        var frame := KeyFrame(es, Last(s.stack).name);
        MachineReadsPair(c, step, Grown(s, frame, ctx), Last(pairs));
        var r := EvalPair(c, Last(pairs), es, s.depth, ctx);
        if r.Ok? {
          Regrown(s, frame, ctx, KeyFrame(r.value.0, frame.name), r.value.1);
        }
      }
    }
  }

  lemma {:induction false} MachineReadsPair(c: Config, step: Stepper, s: State, pair: Pair)
    requires Steps(c, step)
    requires AtKey(s)
    ensures Run(step, s, SpellPair(pair)) ==
      ReadingPairs(s, EvalPair(c, pair, Last(s.stack).entries, s.depth, CtxOf(s)))
    decreases pair
  {
    RunAppend(step, s, [KeyEvent(pair.key)], Spell(pair.value));
    RunOne(step, s, KeyEvent(pair.key));
    MachineReadsKey(c, step, s, pair.key);
    var k := EvalKey(c, pair.key, s.depth, CtxOf(s));
    if k.Ok? {
      var (key, ctx) := k.value;
      var frame := Last(s.stack);
      var waiting := ValueFrame(frame.entries, key, frame.name);
      MachineReadsNode(c, step, Grown(s, waiting, ctx), pair.value);
      var r := EvalPair(c, pair, frame.entries, s.depth, CtxOf(s));
      if r.Ok? {
        Regrown(s, waiting, ctx, KeyFrame(r.value.0, frame.name), r.value.1);
      }
    }
  }

  lemma MachineReadsKey(c: Config, step: Stepper, s: State, k: Key)
    requires Steps(c, step)
    requires AtKey(s)
    ensures step(s, KeyEvent(k)) ==
      match EvalKey(c, k, s.depth, CtxOf(s))
      case Err(e) => Err(e)
      case Ok((key, ctx)) => Ok(Grown(s, ValueFrame(Last(s.stack).entries, key, Last(s.stack).name), ctx))
  {
    assert step(s, KeyEvent(k)) == Step(c, s, KeyEvent(k));
  }

  /** Whole streams: the machine ends with the last document's value, or with the evaluator's refusal. */
  lemma {:induction false} MachineReadsStream(c: Config, step: Stepper, docs: seq<Node>)
    requires Steps(c, step)
    ensures Run(step, START, SpellStream(docs)) ==
      match EvalStream(c, docs)
      case Err(e) => Err(e)
      case Ok((root, m)) => Ok(State([], root, 0, map[], m))
  {
    if docs == [] {
      RunOne(step, START, StreamStart);
      assert step(START, StreamStart) == Step(c, START, StreamStart);
    } else {
      MachineReadsStream(c, step, Front(docs));
      var last := [DocumentStart] + Spell(Last(docs)) + [DocumentEnd];
      RunAppend(step, START, SpellStream(Front(docs)), last);
      var before := EvalStream(c, Front(docs));
      if before.Ok? {
        MachineReadsDocument(c, step, before.value.0, before.value.1, Last(docs));
      }
    }
  }

  lemma MachineReadsDocument(c: Config, step: Stepper, root: Option<Value>, m: Meter, doc: Node)
    requires Steps(c, step)
    ensures Run(step, State([], root, 0, map[], m), [DocumentStart] + Spell(doc) + [DocumentEnd]) ==
      match ReadDocument(c, doc, m)
      case Err(e) => Err(e)
      case Ok((v, m1)) => Ok(State([], Some(v), 0, map[], m1))
  {
    var s := State([], root, 0, map[], m);
    RunWrapped(step, s, DocumentStart, Spell(doc), DocumentEnd);
    assert step(s, DocumentStart) == Step(c, s, DocumentStart);
    var started := ChargeEvent(c, m, DocumentStart);
    if started.Ok? {
      var s1 := s.(meter := started.value);
      MachineReadsNode(c, step, s1, doc);
      var r := Eval(c, doc, 0, CtxOf(s1));
      if r.Ok? {
        var end := With(s1, r.value.1).(result := Some(r.value.0));
        RunOne(step, end, DocumentEnd);
        assert step(end, DocumentEnd) == Step(c, end, DocumentEnd);
      }
    }
  }
}
