/** What a document means when nothing is limited: plain substitution of anchors. */
module Meaning {
  import opened Common
  import opened Errors
  import opened Events
  import opened Metering
  import opened Tree
  import opened Machine
  import opened Syntax
  import opened Evaluation

  type Env = map<string, Value>

  function Bind(env: Env, name: Option<string>, v: Value): Env {
    if name.None? then env else env[name.value := v]
  }

  function Denote(rules: Rules, n: Node, env: Env): Result<(Value, Env), Error>
    decreases n
  {
    match n
    case ScalarNode(text, style, name, tag) =>
      var v := ResolveScalar(rules, text, style, tag);
      Ok((v, Bind(env, name, v)))
    case AliasNode(target) => if target in env then Ok((env[target], env)) else Err(UnknownAnchor(target))
    case SequenceNode(name, items) =>
      var (vs, env1) :- DenoteItems(rules, items, env);
      Ok((Sequence(vs), Bind(env1, name, Sequence(vs))))
    case MappingNode(name, pairs) =>
      var (es, env1) :- DenotePairs(rules, pairs, env);
      Ok((Mapping(es), Bind(env1, name, Mapping(es))))
  }

  function DenoteItems(rules: Rules, items: seq<Node>, env: Env): Result<(seq<Value>, Env), Error>
    decreases items
  {
    if items == [] then Ok(([], env))
    else
      var (vs, env1) :- DenoteItems(rules, Front(items), env);
      var (v, env2) :- Denote(rules, Last(items), env1);
      Ok((vs + [v], env2))
  }

  function DenotePairs(rules: Rules, pairs: seq<Pair>, env: Env): Result<(seq<Entry>, Env), Error>
    decreases pairs
  {
    if pairs == [] then Ok(([], env))
    else
      var (es, env1) :- DenotePairs(rules, Front(pairs), env);
      DenotePair(rules, Last(pairs), es, env1)
  }

  function DenotePair(rules: Rules, pair: Pair, es: seq<Entry>, env: Env): Result<(seq<Entry>, Env), Error>
    decreases pair
  {
    var key :- DenoteKey(rules, pair.key, env);
    var (v, env1) :- Denote(rules, pair.value, env);
    var grown :- PlaceEntry(rules, es, key, v);
    Ok((grown, env1))
  }

  function DenoteKey(rules: Rules, k: Key, env: Env): Result<string, Error> {
    match k
    case ScalarKey(text, style, _, _) =>
      if style == Plain && text == MERGE_KEY && rules.mergeKeys == RefuseMerge then Err(MergeKeyRejected) else Ok(text)
    case KeyAlias(target) => if target in env then AliasKey(rules, env[target]) else Err(UnknownAnchor(target))
  }

  // ----- limits only ever refuse: they never change what a document means -----

  ghost function Values(ctx: Ctx): Env { map k | k in ctx.anchors :: ctx.anchors[k].value }

  /** The limited result `r` is a refusal by a limit, or says exactly what the meaning `m` says. */
  ghost predicate Agrees<T>(r: Result<(T, Ctx), Error>, m: Result<(T, Env), Error>) {
    match r
    case Ok((t, ctx)) => m == Ok((t, Values(ctx)))
    case Err(e) => e.IsLimit() || m == Err(e)
  }

  lemma DefineBinds(ctx: Ctx, name: Option<string>, v: Value)
    ensures Values(Define(ctx, name, v)) == Bind(Values(ctx), name, v)
  {
  }

  /** A completed collection closes the same way with and without limits. */
  lemma CloseAgrees(c: Config, ctx: Ctx, e: Event, name: Option<string>, v: Value)
    requires e == SequenceEnd || e == MappingEnd
    ensures Agrees(Close(c, ctx, e, name, v), Ok((v, Bind(Values(ctx), name, v))))
  {
    DefineBinds(ctx, name, v);
  }

  lemma {:induction false} LimitsOnlyRefuse(c: Config, n: Node, depth: nat, ctx: Ctx)
    ensures Agrees(Eval(c, n, depth, ctx), Denote(c.rules, n, Values(ctx)))
    decreases n
  {
    match n
    case ScalarNode(text, style, name, tag) =>
      var r := Charge(c, ctx, Scalar(text, style, name, tag));
      if r.Ok? {
        DefineBinds(r.value, name, ResolveScalar(c.rules, text, style, tag));
      }
    case AliasNode(_) =>
    case SequenceNode(name, items) =>
      var start := Open(c, ctx, SequenceStart(name), depth);
      if start.Ok? {
        ItemsAgree(c, items, depth + 1, start.value);
        var r := EvalItems(c, items, depth + 1, start.value);
        if r.Ok? {
          CloseAgrees(c, r.value.1, SequenceEnd, name, Sequence(r.value.0));
        }
      }
    case MappingNode(name, pairs) =>
      var start := Open(c, ctx, MappingStart(name), depth);
      if start.Ok? {
        PairsAgree(c, pairs, depth + 1, start.value);
        var r := EvalPairs(c, pairs, depth + 1, start.value);
        if r.Ok? {
          CloseAgrees(c, r.value.1, MappingEnd, name, Mapping(r.value.0));
        }
      }
  }

  lemma {:induction false} ItemsAgree(c: Config, items: seq<Node>, depth: nat, ctx: Ctx)
    ensures Agrees(EvalItems(c, items, depth, ctx), DenoteItems(c.rules, items, Values(ctx)))
    decreases items
  {
    if items != [] {
      ItemsAgree(c, Front(items), depth, ctx);
      var before := EvalItems(c, Front(items), depth, ctx);
      if before.Ok? {
        LimitsOnlyRefuse(c, Last(items), depth, before.value.1);
      }
    }
  }

  lemma {:induction false} PairsAgree(c: Config, pairs: seq<Pair>, depth: nat, ctx: Ctx)
    ensures Agrees(EvalPairs(c, pairs, depth, ctx), DenotePairs(c.rules, pairs, Values(ctx)))
    decreases pairs
  {
    if pairs != [] {
      PairsAgree(c, Front(pairs), depth, ctx);
      var before := EvalPairs(c, Front(pairs), depth, ctx);
      if before.Ok? {
        PairAgrees(c, Last(pairs), before.value.0, depth, before.value.1);
      }
    }
  }

  lemma {:induction false} PairAgrees(c: Config, pair: Pair, es: seq<Entry>, depth: nat, ctx: Ctx)
    ensures Agrees(EvalPair(c, pair, es, depth, ctx), DenotePair(c.rules, pair, es, Values(ctx)))
    decreases pair
  {
    KeyAgrees(c, pair.key, depth, ctx);
    var k := EvalKey(c, pair.key, depth, ctx);
    if k.Ok? {
      LimitsOnlyRefuse(c, pair.value, depth, k.value.1);
    }
  }

  lemma KeyAgrees(c: Config, k: Key, depth: nat, ctx: Ctx)
    ensures match EvalKey(c, k, depth, ctx)
            case Ok((key, ctx1)) => DenoteKey(c.rules, k, Values(ctx)) == Ok(key) && Values(ctx1) == Values(ctx)
            case Err(e) => e.IsLimit() || DenoteKey(c.rules, k, Values(ctx)) == Err(e)
  {
  }

  /**
    * An alias inside the collection that carries its anchor cannot see that anchor, which is
    * bound only on completion: it means what the name meant before, or nothing.
    */
  lemma OwnAliasSeesOldBinding(rules: Rules, name: string, items: seq<Node>, env: Env)
    ensures var r := Denote(rules, SequenceNode(Some(name), items + [AliasNode(name)]), env);
      match DenoteItems(rules, items, env)
      case Err(e) => r == Err(e)
      case Ok((vs, env1)) =>
        if name in env1 then r == Ok((Sequence(vs + [env1[name]]), env1[name := Sequence(vs + [env1[name]])]))
        else r == Err(UnknownAnchor(name))
  {
    var all := items + [AliasNode(name)];
    assert Front(all) == items && Last(all) == AliasNode(name);
    var r := DenoteItems(rules, all, env);
    if DenoteItems(rules, items, env).Ok? {
      var env1 := DenoteItems(rules, items, env).value.1;
      assert Denote(rules, Last(all), env1) ==
        if name in env1 then Ok((env1[name], env1)) else Err(UnknownAnchor(name));
    }
  }

  /** The same for an alias as the last value of a mapping, placed as the policy has it. */
  lemma OwnAliasAsValue(rules: Rules, name: string, pairs: seq<Pair>, k: Key, env: Env)
    ensures var r, before := Denote(rules, MappingNode(Some(name), pairs + [Pair(k, AliasNode(name))]), env),
                             DenotePairs(rules, pairs, env);
      if before.Err? then r == Err(before.error)
      else
        var (es, env1) := before.value;
        var key := DenoteKey(rules, k, env1);
        if key.Err? then r == Err(key.error)
        else if name !in env1 then r == Err(UnknownAnchor(name))
        else
          var placed := PlaceEntry(rules, es, key.value, env1[name]);
          if placed.Err? then r == Err(placed.error)
          else r == Ok((Mapping(placed.value), env1[name := Mapping(placed.value)]))
  {
    var all := pairs + [Pair(k, AliasNode(name))];
    assert Front(all) == pairs && Last(all) == Pair(k, AliasNode(name));
    var before := DenotePairs(rules, pairs, env);
    if before.Ok? {
      var (es, env1) := before.value;
      assert DenotePairs(rules, all, env) == DenotePair(rules, Last(all), es, env1);
      assert Denote(rules, AliasNode(name), env1) ==
        if name in env1 then Ok((env1[name], env1)) else Err(UnknownAnchor(name));
    }
  }

  ghost function Bound(name: Option<string>, r: Result<(Value, Env), Error>): Result<(Value, Env), Error> {
    if r.Err? then r else Ok((r.value.0, Bind(r.value.1, name, r.value.0)))
  }

  /** The contents of a collection, at any depth, read as if it had no anchor; the anchor is bound afterwards. */
  lemma OwnAnchorIsUnseen(rules: Rules, name: Option<string>, items: seq<Node>, pairs: seq<Pair>, env: Env)
    ensures Denote(rules, SequenceNode(name, items), env) == Bound(name, Denote(rules, SequenceNode(None, items), env))
    ensures Denote(rules, MappingNode(name, pairs), env) == Bound(name, Denote(rules, MappingNode(None, pairs), env))
  {
  }

  /** Somewhere in `n`, as a value or as a key, stands an alias to `name`. */
  ghost predicate Mentions(n: Node, name: string)
    decreases n
  {
    match n
    case ScalarNode(_, _, _, _) => false
    case AliasNode(target) => target == name
    case SequenceNode(_, items) => ItemsMention(items, name)
    case MappingNode(_, pairs) => PairsMention(pairs, name)
  }

  ghost predicate ItemsMention(items: seq<Node>, name: string)
    decreases items
  {
    items != [] && (ItemsMention(Front(items), name) || Mentions(Last(items), name))
  }

  ghost predicate PairsMention(pairs: seq<Pair>, name: string)
    decreases pairs
  {
    pairs != [] && (PairsMention(Front(pairs), name) || PairMentions(Last(pairs), name))
  }

  ghost predicate PairMentions(pair: Pair, name: string)
    decreases pair
  {
    pair.key == KeyAlias(name) || Mentions(pair.value, name)
  }

  /** Some value in `n` is anchored as `name`; an anchor on a key counts for nothing. */
  ghost predicate Defines(n: Node, name: string)
    decreases n
  {
    match n
    case ScalarNode(_, _, own, _) => own == Some(name)
    case AliasNode(_) => false
    case SequenceNode(own, items) => own == Some(name) || ItemsDefine(items, name)
    case MappingNode(own, pairs) => own == Some(name) || PairsDefine(pairs, name)
  }

  ghost predicate ItemsDefine(items: seq<Node>, name: string)
    decreases items
  {
    items != [] && (ItemsDefine(Front(items), name) || Defines(Last(items), name))
  }

  ghost predicate PairsDefine(pairs: seq<Pair>, name: string)
    decreases pairs
  {
    pairs != [] && (PairsDefine(Front(pairs), name) || PairDefines(Last(pairs), name))
  }

  ghost predicate PairDefines(pair: Pair, name: string)
    decreases pair
  {
    Defines(pair.value, name)
  }

  /** A name that is neither bound before nor defined inside cannot be mentioned in what reads without fault. */
  lemma {:induction false} UnboundIsUnmentioned(rules: Rules, n: Node, env: Env, name: string)
    requires name !in env && !Defines(n, name) && Denote(rules, n, env).Ok?
    ensures !Mentions(n, name) && name !in Denote(rules, n, env).value.1
    decreases n
  {
    match n
    case SequenceNode(_, items) => UnboundInItems(rules, items, env, name);
    case MappingNode(_, pairs) => UnboundInPairs(rules, pairs, env, name);
    case _ =>
  }

  lemma {:induction false} UnboundInItems(rules: Rules, items: seq<Node>, env: Env, name: string)
    requires name !in env && !ItemsDefine(items, name) && DenoteItems(rules, items, env).Ok?
    ensures !ItemsMention(items, name) && name !in DenoteItems(rules, items, env).value.1
    decreases items
  {
    if items != [] {
      UnboundInItems(rules, Front(items), env, name);
      UnboundIsUnmentioned(rules, Last(items), DenoteItems(rules, Front(items), env).value.1, name);
    }
  }

  lemma {:induction false} UnboundInPairs(rules: Rules, pairs: seq<Pair>, env: Env, name: string)
    requires name !in env && !PairsDefine(pairs, name) && DenotePairs(rules, pairs, env).Ok?
    ensures !PairsMention(pairs, name) && name !in DenotePairs(rules, pairs, env).value.1
    decreases pairs
  {
    if pairs != [] {
      UnboundInPairs(rules, Front(pairs), env, name);
      var (es, env1) := DenotePairs(rules, Front(pairs), env).value;
      UnboundInPair(rules, Last(pairs), es, env1, name);
    }
  }

  lemma {:induction false} UnboundInPair(rules: Rules, pair: Pair, es: seq<Entry>, env: Env, name: string)
    requires name !in env && !PairDefines(pair, name) && DenotePair(rules, pair, es, env).Ok?
    ensures !PairMentions(pair, name) && name !in DenotePair(rules, pair, es, env).value.1
    decreases pair
  {
    UnboundIsUnmentioned(rules, pair.value, env, name);
  }

  /**
    * An alias anywhere inside the collection that carries its anchor, with the name neither
    * bound before nor defined again inside, is refused.
    */
  lemma OwnAliasNeedsOldBinding(rules: Rules, name: string, items: seq<Node>, pairs: seq<Pair>, env: Env)
    requires name !in env
    ensures ItemsMention(items, name) && !ItemsDefine(items, name) ==>
      Denote(rules, SequenceNode(Some(name), items), env).Err?
    ensures PairsMention(pairs, name) && !PairsDefine(pairs, name) ==>
      Denote(rules, MappingNode(Some(name), pairs), env).Err?
  {
    if DenoteItems(rules, items, env).Ok? && !ItemsDefine(items, name) {
      UnboundInItems(rules, items, env, name);
    }
    if DenotePairs(rules, pairs, env).Ok? && !PairsDefine(pairs, name) {
      UnboundInPairs(rules, pairs, env, name);
    }
  }

  /** The meaning of a stream: the last document's, each read with no anchors from the others. */
  function DenoteStream(rules: Rules, docs: seq<Node>): Result<Option<Value>, Error> {
    if docs == [] then Ok(None)
    else
      var _ :- DenoteStream(rules, Front(docs));
      var (v, _) :- Denote(rules, Last(docs), map[]);
      Ok(Some(v))
  }

  /**
    * A whole load: the machine, run on the events of any stream of documents, ends with the
    * meaning of the stream, with the fault the meaning has, or with a refusal by a limit.
    */
  lemma {:induction false} LoadMeansStream(c: Config, docs: seq<Node>)
    ensures match Run(StepOf(c), START, SpellStream(docs))
            case Ok(s) => DenoteStream(c.rules, docs) == Ok(s.result) && s.stack == [] && s.anchors == map[]
            case Err(e) => e.IsLimit() || DenoteStream(c.rules, docs) == Err(e)
  {
    MachineReadsStream(c, StepOf(c), docs);
    if docs != [] {
      LoadMeansStream(c, Front(docs));
      MachineReadsStream(c, StepOf(c), Front(docs));
      var before := EvalStream(c, Front(docs));
      if before.Ok? {
        DocumentAgrees(c, Last(docs), before.value.1);
      }
    }
  }

  lemma DocumentAgrees(c: Config, doc: Node, m: Meter)
    ensures match ReadDocument(c, doc, m)
            case Ok((v, _)) => Denote(c.rules, doc, map[]).Ok? && Denote(c.rules, doc, map[]).value.0 == v
            case Err(e) => e.IsLimit() || Denote(c.rules, doc, map[]) == Err(e)
  {
    var started := ChargeEvent(c, m, DocumentStart);
    if started.Ok? {
      var ctx := Ctx(map[], started.value);
      assert Values(ctx) == map[];
      LimitsOnlyRefuse(c, doc, 0, ctx);
    }
  }

  /** Two loads of one stream under the same rules but other limits never disagree on a value. */
  lemma LimitsNeverChangeAValue(c1: Config, c2: Config, docs: seq<Node>)
    requires c1.rules == c2.rules
    requires Run(StepOf(c1), START, SpellStream(docs)).Ok? && Run(StepOf(c2), START, SpellStream(docs)).Ok?
    ensures Run(StepOf(c1), START, SpellStream(docs)).value.result ==
      Run(StepOf(c2), START, SpellStream(docs)).value.result
  {
    LoadMeansStream(c1, docs);
    LoadMeansStream(c2, docs);
  }
}
