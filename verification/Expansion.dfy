/** Alias expansion is paid for: the memory of a document is bounded by its budgets. */
module Expansion {
  import opened Common
  import opened Errors
  import opened Events
  import opened Limits
  import opened Metering
  import opened Tree
  import opened Machine
  import opened Syntax
  import opened Evaluation
  import opened Counting

  /** The bytes of `nodes` nodes, as a sum, which keeps the proofs about it linear. */
  function NodeBytes(c: Config, nodes: nat): nat {
    if nodes == 0 then 0 else NodeBytes(c, nodes - 1) + c.nodeBytes
  }

  lemma {:induction false} IsProduct(c: Config, nodes: nat)
    ensures NodeBytes(c, nodes) == nodes * c.nodeBytes
  {
    if nodes > 0 {
      IsProduct(c, nodes - 1);
    }
  }

  lemma {:induction false} Distributes(c: Config, a: nat, b: nat)
    ensures NodeBytes(c, a + b) == NodeBytes(c, a) + NodeBytes(c, b)
    decreases b
  {
    if b > 0 {
      Distributes(c, a, b - 1);
    }
  }

  /** The alias bytes one document may spend. */
  function Allowance(c: Config): nat { Min(c.maxDocumentLength, MAX_ALIAS_BYTES) }

  // ----- the nodes a document writes itself -----

  function WrittenNodes(n: Node): nat
    decreases n
  {
    match n
    case ScalarNode(_, _, _, _) => 1
    case AliasNode(_) => 0
    case SequenceNode(_, items) => 1 + WrittenInItems(items)
    case MappingNode(_, pairs) => 1 + WrittenInPairs(pairs)
  }

  function WrittenInItems(items: seq<Node>): nat
    decreases items
  {
    if items == [] then 0 else WrittenInItems(Front(items)) + WrittenNodes(Last(items))
  }

  function WrittenInPairs(pairs: seq<Pair>): nat
    decreases pairs
  {
    if pairs == [] then 0 else WrittenInPairs(Front(pairs)) + WrittenInPair(Last(pairs))
  }

  function WrittenInPair(pair: Pair): nat
    decreases pair
  {
    (if pair.key.ScalarKey? then 1 else 0) + WrittenNodes(pair.value)
  }

  // ----- every other node is paid for by an alias -----

  ghost predicate Measured(anchors: map<string, Anchored>) {
    forall name :: name in anchors ==> anchors[name].cost == Measure(anchors[name].value)
  }

  ghost predicate Ready(c: Config, ctx: Ctx) {
    ctx.meter.aliasBytes <= Allowance(c) && Measured(ctx.anchors)
  }

  /** From `ctx` to `ctx1` the nodes made are written, or paid for in alias bytes. */
  ghost predicate PaidFor(c: Config, ctx: Ctx, ctx1: Ctx, written: nat, nodes: nat) {
    && Ready(c, ctx1)
    && ctx.meter.aliasBytes + NodeBytes(c, nodes) <= ctx1.meter.aliasBytes + NodeBytes(c, written)
  }

  lemma PaidTwice(c: Config, ctx: Ctx, ctx1: Ctx, ctx2: Ctx, w1: nat, n1: nat, w2: nat, n2: nat)
    requires PaidFor(c, ctx, ctx1, w1, n1) && PaidFor(c, ctx1, ctx2, w2, n2)
    ensures PaidFor(c, ctx, ctx2, w1 + w2, n1 + n2)
  {
    Distributes(c, w1, w2);
    Distributes(c, n1, n2);
  }

  lemma PaidInAll(
      c: Config, ctx: Ctx, ctx1: Ctx, ctx2: Ctx, w1: nat, n1: nat, w2: nat, n2: nat, written: nat, nodes: nat)
    requires PaidFor(c, ctx, ctx1, w1, n1) && PaidFor(c, ctx1, ctx2, w2, n2)
    requires written == w1 + w2 && nodes == n1 + n2
    ensures PaidFor(c, ctx, ctx2, written, nodes)
  {
    PaidTwice(c, ctx, ctx1, ctx2, w1, n1, w2, n2);
  }

  lemma PaidLess(c: Config, ctx: Ctx, ctx1: Ctx, written: nat, more: nat, fewer: nat)
    requires PaidFor(c, ctx, ctx1, written, more) && fewer <= more
    ensures PaidFor(c, ctx, ctx1, written, fewer)
  {
    Distributes(c, fewer, more - fewer);
  }

  /** A charged event leaves the alias bytes alone, and the anchors. */
  lemma ChargePays(c: Config, ctx: Ctx, e: Event, nodes: nat)
    requires Ready(c, ctx) && e != DocumentStart
    ensures Charge(c, ctx, e).Ok? ==> PaidFor(c, ctx, Charge(c, ctx, e).value, nodes, nodes)
  {
  }

  lemma {:induction false} NodeBytesGrow(c: Config, nodes: nat)
    requires 0 < c.nodeBytes
    ensures nodes <= NodeBytes(c, nodes)
  {
    if nodes > 0 {
      NodeBytesGrow(c, nodes - 1);
    }
  }

  lemma {:induction false} NoBytes(c: Config, nodes: nat)
    requires c.nodeBytes == 0
    ensures NodeBytes(c, nodes) == 0
  {
    if nodes > 0 {
      NoBytes(c, nodes - 1);
    }
  }

  lemma BytesCoverNodes(c: Config, v: Value)
    requires Measure(v).Bytes(c) < USIZE_MAX
    ensures NodeBytes(c, Nodes(v)) <= Measure(v).Bytes(c)
  {
    if c.nodeBytes == 0 {
      NoBytes(c, Nodes(v));
    } else {
      IsProduct(c, Sat(Nodes(v)));
      NodeBytesGrow(c, Sat(Nodes(v)));
    }
  }

  /** An alias pays for every node it copies. */
  lemma AliasPays(c: Config, ctx: Ctx, target: string, depth: nat)
    requires Ready(c, ctx)
    ensures Dereference(c, ctx, target, depth).Ok? ==>
      var (v, ctx1) := Dereference(c, ctx, target, depth).value;
      PaidFor(c, ctx, ctx1, 0, Nodes(v)) && 1 <= Nodes(v)
  {
    var r := Dereference(c, ctx, target, depth);
    if r.Ok? {
      BytesCoverNodes(c, r.value.0);
    }
  }

  lemma DefineKeepsReady(c: Config, ctx: Ctx, ctx1: Ctx, written: nat, nodes: nat, name: Option<string>, v: Value)
    requires PaidFor(c, ctx, ctx1, written, nodes)
    ensures PaidFor(c, ctx, Define(ctx1, name, v), written, nodes)
  {
  }

  lemma ClosePays(
      c: Config, ctx: Ctx, ctx1: Ctx, written: nat, nodes: nat, e: Event, name: Option<string>, v: Value)
    requires PaidFor(c, ctx, ctx1, written, nodes) && (e == SequenceEnd || e == MappingEnd)
    ensures Close(c, ctx1, e, name, v).Ok? ==> PaidFor(c, ctx, Close(c, ctx1, e, name, v).value.1, written, nodes)
  {
    var r := Charge(c, ctx1, e);
    if r.Ok? {
      ChargePays(c, ctx1, e, 0);
      PaidTwice(c, ctx, ctx1, r.value, written, nodes, 0, 0);
      DefineKeepsReady(c, ctx, r.value, written, nodes, name, v);
    }
  }

  lemma CollectionPays(
      c: Config, ctx: Ctx, start: Ctx, ctx1: Ctx, written: nat, inner: nat, e: Event, name: Option<string>, v: Value)
    requires PaidFor(c, ctx, start, 1, 1) && PaidFor(c, start, ctx1, written, inner) && Nodes(v) == 1 + inner
    requires e == SequenceEnd || e == MappingEnd
    ensures Close(c, ctx1, e, name, v).Ok? ==>
      PaidFor(c, ctx, Close(c, ctx1, e, name, v).value.1, 1 + written, Nodes(v))
  {
    PaidTwice(c, ctx, start, ctx1, 1, 1, written, inner);
    ClosePays(c, ctx, ctx1, 1 + written, Nodes(v), e, name, v);
  }

  lemma {:induction false} EvalPays(c: Config, n: Node, depth: nat, ctx: Ctx)
    requires Ready(c, ctx)
    ensures Eval(c, n, depth, ctx).Ok? ==>
      var (v, ctx1) := Eval(c, n, depth, ctx).value; PaidFor(c, ctx, ctx1, WrittenNodes(n), Nodes(v))
    decreases n
  {
    match n
    case ScalarNode(text, style, name, tag) => ScalarPays(c, ctx, text, style, name, tag, depth);
    case AliasNode(target) => AliasPays(c, ctx, target, depth);
    case SequenceNode(name, items) => SequencePays(c, name, items, depth, ctx);
    case MappingNode(name, pairs) => MappingPays(c, name, pairs, depth, ctx);
  }

  lemma ScalarPays(
      c: Config, ctx: Ctx, text: string, style: Style, name: Option<string>, tag: Option<Tag>, depth: nat)
    requires Ready(c, ctx)
    ensures Eval(c, ScalarNode(text, style, name, tag), depth, ctx).Ok? ==>
      var (v, ctx1) := Eval(c, ScalarNode(text, style, name, tag), depth, ctx).value;
      PaidFor(c, ctx, ctx1, 1, Nodes(v))
  {
    ChargePays(c, ctx, Scalar(text, style, name, tag), 1);
    var r := Charge(c, ctx, Scalar(text, style, name, tag));
    if r.Ok? {
      DefineKeepsReady(c, ctx, r.value, 1, 1, name, ResolveScalar(c.rules, text, style, tag));
    }
  }

  lemma {:induction false} SequencePays(c: Config, name: Option<string>, items: seq<Node>, depth: nat, ctx: Ctx)
    requires Ready(c, ctx)
    ensures Eval(c, SequenceNode(name, items), depth, ctx).Ok? ==>
      var (v, ctx1) := Eval(c, SequenceNode(name, items), depth, ctx).value;
      PaidFor(c, ctx, ctx1, 1 + WrittenInItems(items), Nodes(v))
    decreases items, 1
  {
    ChargePays(c, ctx, SequenceStart(name), 1);
    var start := Open(c, ctx, SequenceStart(name), depth);
    if start.Ok? {
      ItemsPay(c, items, depth + 1, start.value);
      var r := EvalItems(c, items, depth + 1, start.value);
      if r.Ok? {
        var (vs, ctx1) := r.value;
        CollectionPays(c, ctx, start.value, ctx1, WrittenInItems(items), NodesAll(vs), SequenceEnd, name, Sequence(vs));
      }
    }
  }

  lemma {:induction false} MappingPays(c: Config, name: Option<string>, pairs: seq<Pair>, depth: nat, ctx: Ctx)
    requires Ready(c, ctx)
    ensures Eval(c, MappingNode(name, pairs), depth, ctx).Ok? ==>
      var (v, ctx1) := Eval(c, MappingNode(name, pairs), depth, ctx).value;
      PaidFor(c, ctx, ctx1, 1 + WrittenInPairs(pairs), Nodes(v))
    decreases pairs, 1
  {
    ChargePays(c, ctx, MappingStart(name), 1);
    var start := Open(c, ctx, MappingStart(name), depth);
    if start.Ok? {
      PairsPay(c, pairs, depth + 1, start.value);
      var r := EvalPairs(c, pairs, depth + 1, start.value);
      if r.Ok? {
        var (es, ctx1) := r.value;
        CollectionPays(
          c, ctx, start.value, ctx1, WrittenInPairs(pairs), NodesOfEntries(es), MappingEnd, name, Mapping(es));
      }
    }
  }

  lemma {:induction false} ItemsPay(c: Config, items: seq<Node>, depth: nat, ctx: Ctx)
    requires Ready(c, ctx)
    ensures EvalItems(c, items, depth, ctx).Ok? ==>
      var (vs, ctx1) := EvalItems(c, items, depth, ctx).value;
      PaidFor(c, ctx, ctx1, WrittenInItems(items), NodesAll(vs))
    decreases items, 0
  {
    if items != [] {
      ItemsPay(c, Front(items), depth, ctx);
      var before := EvalItems(c, Front(items), depth, ctx);
      if before.Ok? {
        var (vs, ctx1) := before.value;
        EvalPays(c, Last(items), depth, ctx1);
        var r := Eval(c, Last(items), depth, ctx1);
        if r.Ok? {
          var (v, ctx2) := r.value;
          assert Front(vs + [v]) == vs && Last(vs + [v]) == v;
          PaidInAll(
            c, ctx, ctx1, ctx2, WrittenInItems(Front(items)), NodesAll(vs), WrittenNodes(Last(items)), Nodes(v),
            WrittenInItems(items), NodesAll(vs + [v]));
        }
      }
    }
  }

  lemma {:induction false} PairsPay(c: Config, pairs: seq<Pair>, depth: nat, ctx: Ctx)
    requires Ready(c, ctx)
    ensures EvalPairs(c, pairs, depth, ctx).Ok? ==>
      var (es, ctx1) := EvalPairs(c, pairs, depth, ctx).value;
      PaidFor(c, ctx, ctx1, WrittenInPairs(pairs), NodesOfEntries(es))
    decreases pairs, 0
  {
    if pairs == [] {
      NothingPaid(c, ctx);
    } else if EvalPairs(c, pairs, depth, ctx).Ok? {
      var es, ctx1, grown, ctx2 := LastPair(c, pairs, depth, ctx);
      PairsPay(c, Front(pairs), depth, ctx);
      PairPaysOn(
        c, Last(pairs), es, depth, ctx, ctx1, WrittenInPairs(Front(pairs)), grown, ctx2, WrittenInPairs(pairs));
    }
  }

  lemma NothingPaid(c: Config, ctx: Ctx)
    requires Ready(c, ctx)
    ensures PaidFor(c, ctx, ctx, 0, 0)
  {
  }

  lemma LastPair(c: Config, pairs: seq<Pair>, depth: nat, ctx: Ctx)
    returns (es: seq<Entry>, ctx1: Ctx, grown: seq<Entry>, ctx2: Ctx)
    requires pairs != [] && EvalPairs(c, pairs, depth, ctx).Ok?
    ensures EvalPairs(c, Front(pairs), depth, ctx) == Ok((es, ctx1))
    ensures EvalPair(c, Last(pairs), es, depth, ctx1) == Ok((grown, ctx2))
    ensures EvalPairs(c, pairs, depth, ctx) == Ok((grown, ctx2))
  {
    var before := EvalPairs(c, Front(pairs), depth, ctx).value;
    es, ctx1 := before.0, before.1;
    var r := EvalPair(c, Last(pairs), es, depth, ctx1).value;
    grown, ctx2 := r.0, r.1;
  }

  lemma {:induction false} PairPaysOn(
      c: Config, pair: Pair, es: seq<Entry>, depth: nat, ctx: Ctx, ctx1: Ctx, written: nat,
      grown: seq<Entry>, ctx2: Ctx, all: nat)
    requires PaidFor(c, ctx, ctx1, written, NodesOfEntries(es))
    requires EvalPair(c, pair, es, depth, ctx1) == Ok((grown, ctx2))
    requires all == written + WrittenInPair(pair)
    ensures PaidFor(c, ctx, ctx2, all, NodesOfEntries(grown))
    decreases pair, 1
  {
    var more, end, nodes := PairPays(c, pair, es, depth, ctx1);
    PaidOn(c, ctx, ctx1, ctx2, written, NodesOfEntries(es), WrittenInPair(pair), more, nodes);
  }

  lemma PaidOn(
      c: Config, ctx: Ctx, ctx1: Ctx, ctx2: Ctx, w1: nat, n1: nat, w2: nat, n2: nat, nodes: nat)
    requires PaidFor(c, ctx, ctx1, w1, n1) && PaidFor(c, ctx1, ctx2, w2, n2) && nodes <= n1 + n2
    ensures PaidFor(c, ctx, ctx2, w1 + w2, nodes)
  {
    PaidTwice(c, ctx, ctx1, ctx2, w1, n1, w2, n2);
    PaidLess(c, ctx, ctx2, w1 + w2, n1 + n2, nodes);
  }

  /** A pair pays for at least the nodes it adds, which a kept or replaced duplicate makes fewer. */
  lemma {:induction false} PairPays(c: Config, pair: Pair, es: seq<Entry>, depth: nat, ctx: Ctx)
    returns (more: nat, ctx2: Ctx, nodes: nat)
    requires Ready(c, ctx) && EvalPair(c, pair, es, depth, ctx).Ok?
    ensures var r := EvalPair(c, pair, es, depth, ctx).value; nodes == NodesOfEntries(r.0) && ctx2 == r.1
    ensures PaidFor(c, ctx, ctx2, WrittenInPair(pair), more) && nodes <= NodesOfEntries(es) + more
    decreases pair, 0
  {
    KeyPays(c, pair.key, depth, ctx);
    var (key, ctx1) := EvalKey(c, pair.key, depth, ctx).value;
    EvalPays(c, pair.value, depth, ctx1);
    var (v, end) := Eval(c, pair.value, depth, ctx1).value;
    more, ctx2, nodes := 1 + Nodes(v), end, NodesOfEntries(EvalPair(c, pair, es, depth, ctx).value.0);
    PaidInAll(
      c, ctx, ctx1, ctx2, if pair.key.ScalarKey? then 1 else 0, 1, WrittenNodes(pair.value), Nodes(v),
      WrittenInPair(pair), more);
    PutAddsNodes(es, key, v);
  }

  lemma KeyPays(c: Config, k: Key, depth: nat, ctx: Ctx)
    requires Ready(c, ctx)
    ensures EvalKey(c, k, depth, ctx).Ok? ==>
      PaidFor(c, ctx, EvalKey(c, k, depth, ctx).value.1, if k.ScalarKey? then 1 else 0, 1)
  {
    match k
    case ScalarKey(_, _, _, _) => ChargePays(c, ctx, KeyEvent(k), 1);
    case KeyAlias(target) =>
      AliasPays(c, ctx, target, depth);
      var r := Dereference(c, ctx, target, depth);
      if r.Ok? {
        PaidLess(c, ctx, r.value.1, 0, Nodes(r.value.0), 1);
      }
  }

  lemma {:induction false} ReplacedNodes(es: seq<Entry>, i: nat, e: Entry)
    requires i < |es|
    ensures NodesOfEntries(es[i := e]) + Nodes(es[i].value) == NodesOfEntries(es) + Nodes(e.value)
    decreases |es|
  {
    if i < |es| - 1 {
      ReplacedNodes(Front(es), i, e);
      assert Front(es[i := e]) == Front(es)[i := e];
    } else {
      assert Front(es[i := e]) == Front(es);
    }
  }

  lemma PutAddsNodes(es: seq<Entry>, key: string, v: Value)
    ensures NodesOfEntries(Put(es, key, v)) <= NodesOfEntries(es) + 1 + Nodes(v)
  {
    var i := IndexOf(es, key);
    if i < |es| {
      ReplacedNodes(es, i, Entry(key, v));
    } else {
      assert Front(es + [Entry(key, v)]) == es;
    }
  }

  /**
    * No document expands past its allowance: whatever its aliases do, the nodes of its tree are
    * at most those it writes itself plus those its alias allowance buys.
    */
  lemma ExpansionIsBounded(c: Config, doc: Node, m: Meter)
    ensures ReadDocument(c, doc, m).Ok? ==>
      NodeBytes(c, Nodes(ReadDocument(c, doc, m).value.0)) <= NodeBytes(c, WrittenNodes(doc)) + Allowance(c)
  {
    var started := ChargeEvent(c, m, DocumentStart);
    if started.Ok? {
      EvalPays(c, doc, 0, Ctx(map[], started.value));
    }
  }

  /** So does no loaded stream, whose value is its last document's. */
  lemma LoadedExpansionIsBounded(c: Config, docs: seq<Node>)
    requires docs != []
    requires Run(StepOf(c), START, SpellStream(docs)).Ok?
    ensures var root := Run(StepOf(c), START, SpellStream(docs)).value.result;
      && root.Some?
      && NodeBytes(c, Nodes(root.value)) <= NodeBytes(c, WrittenNodes(Last(docs))) + Allowance(c)
  {
    MachineReadsStream(c, StepOf(c), docs);
    var before := EvalStream(c, Front(docs));
    if before.Ok? {
      ExpansionIsBounded(c, Last(docs), before.value.1);
    }
  }

  // ----- the written nodes are the counted ones -----

  lemma {:induction false} NodesAppend(a: seq<Event>, b: seq<Event>)
    ensures NodesOf(a + b) == NodesOf(a) + NodesOf(b)
    decreases |b|
  {
    if b == [] {
      assert a + b == a;
    } else {
      NodesAppend(a, Front(b));
      assert Front(a + b) == a + Front(b) && Last(a + b) == Last(b);
    }
  }

  lemma NodesOfOne(e: Event)
    ensures NodesOf([e]) == if IsNode(e) then 1 else 0
  {
    assert Front([e]) == [] && Last([e]) == e;
    assert NodesOf([]) == 0;
  }

  lemma NodesOfWrapped(open: Event, body: seq<Event>, close: Event)
    ensures NodesOf([open] + body + [close]) == NodesOf([open]) + NodesOf(body) + NodesOf([close])
  {
    NodesAppend([open] + body, [close]);
    NodesAppend([open], body);
  }

  lemma {:induction false} WrittenAreCounted(n: Node)
    ensures NodesOf(Spell(n)) == WrittenNodes(n)
    decreases n
  {
    match n
    case ScalarNode(text, style, name, tag) => NodesOfOne(Scalar(text, style, name, tag));
    case AliasNode(target) => NodesOfOne(Alias(target));
    case SequenceNode(name, items) =>
      ItemsAreCounted(items);
      NodesOfWrapped(SequenceStart(name), SpellAll(items), SequenceEnd);
      NodesOfOne(SequenceStart(name));
      NodesOfOne(SequenceEnd);
    case MappingNode(name, pairs) =>
      PairsAreCounted(pairs);
      NodesOfWrapped(MappingStart(name), SpellPairs(pairs), MappingEnd);
      NodesOfOne(MappingStart(name));
      NodesOfOne(MappingEnd);
  }

  lemma {:induction false} ItemsAreCounted(items: seq<Node>)
    ensures NodesOf(SpellAll(items)) == WrittenInItems(items)
    decreases items
  {
    if items != [] {
      ItemsAreCounted(Front(items));
      WrittenAreCounted(Last(items));
      NodesAppend(SpellAll(Front(items)), Spell(Last(items)));
    }
  }

  lemma {:induction false} PairsAreCounted(pairs: seq<Pair>)
    ensures NodesOf(SpellPairs(pairs)) == WrittenInPairs(pairs)
    decreases pairs
  {
    if pairs != [] {
      PairsAreCounted(Front(pairs));
      PairIsCounted(Last(pairs));
      NodesAppend(SpellPairs(Front(pairs)), SpellPair(Last(pairs)));
    }
  }

  lemma {:induction false} PairIsCounted(pair: Pair)
    ensures NodesOf(SpellPair(pair)) == WrittenInPair(pair)
    decreases pair
  {
    WrittenAreCounted(pair.value);
    NodesAppend([KeyEvent(pair.key)], Spell(pair.value));
    NodesOfOne(KeyEvent(pair.key));
  }

  /** A loaded document writes no more nodes than the limit, unless the limit is the largest word. */
  lemma WrittenIsLimited(c: Config, docs: seq<Node>)
    requires docs != [] && Run(StepOf(c), START, SpellStream(docs)).Ok? && c.maxNodes < USIZE_MAX
    ensures WrittenNodes(Last(docs)) <= c.maxNodes
  {
    LoadedIsWithinLimits(c, StepOf(c), SpellStream(docs));
    WrittenAreCounted(Last(docs));
    NodesOfWrapped(DocumentStart, Spell(Last(docs)), DocumentEnd);
    NodesAppend(SpellStream(Front(docs)), [DocumentStart] + Spell(Last(docs)) + [DocumentEnd]);
  }
}
