/** The measures of a tree are those of the events it is read from, and the two kinds of tree are measured alike. */
module Measures {
  import opened Common
  import opened Events
  import opened Metering
  import opened Tree
  import opened Machine
  import opened Syntax
  import opened Meaning
  import opened Counting
  import Expansion
  import Query
  import OwnedTree

  // ----- without aliases the tree has the nodes and the text of its events -----

  /** No alias anywhere, as a value or as a key. */
  ghost predicate NoAliases(n: Node)
    decreases n
  {
    match n
    case ScalarNode(_, _, _, _) => true
    case AliasNode(_) => false
    case SequenceNode(_, items) => NoAliasesIn(items)
    case MappingNode(_, pairs) => NoAliasesInPairs(pairs)
  }

  ghost predicate NoAliasesIn(items: seq<Node>)
    decreases items
  {
    items != [] ==> NoAliasesIn(Front(items)) && NoAliases(Last(items))
  }

  ghost predicate NoAliasesInPairs(pairs: seq<Pair>)
    decreases pairs
  {
    pairs != [] ==> NoAliasesInPairs(Front(pairs)) && NoAliasesInPair(Last(pairs))
  }

  ghost predicate NoAliasesInPair(pair: Pair)
    decreases pair
  {
    pair.key.ScalarKey? && NoAliases(pair.value)
  }

  /** The text of the scalars that stay text: all of them, when none is plain. */
  ghost predicate KeepsText(rules: Rules) { forall text :: rules.resolvePlain(text) == PlainStr }

  lemma {:induction false} TextAppend(a: seq<Event>, b: seq<Event>)
    ensures TextRead(a + b) == TextRead(a) + TextRead(b)
    decreases |b|
  {
    if b == [] {
      assert a + b == a;
    } else {
      TextAppend(a, Front(b));
      assert Front(a + b) == a + Front(b) && Last(a + b) == Last(b);
    }
  }

  lemma TextOfOne(e: Event)
    ensures TextRead([e]) == TextOf(e)
  {
    assert Front([e]) == [] && Last([e]) == e;
    assert TextRead([]) == 0;
  }

  lemma TextOfWrapped(open: Event, body: seq<Event>, close: Event)
    requires !open.Scalar? && !close.Scalar?
    ensures TextRead([open] + body + [close]) == TextRead(body)
  {
    TextAppend([open] + body, [close]);
    TextAppend([open], body);
    TextOfOne(open);
    TextOfOne(close);
  }

  /** `nodes` and `text` against what the events come to: the same text, if plain scalars stay text. */
  ghost predicate Measured(rules: Rules, events: seq<Event>, nodes: nat, text: nat) {
    && nodes == NodesOf(events)
    && text <= TextRead(events)
    && (KeepsText(rules) ==> text == TextRead(events))
  }

  lemma MeasuredAppend(rules: Rules, a: seq<Event>, n: nat, t: nat, b: seq<Event>, m: nat, u: nat)
    requires Measured(rules, a, n, t) && Measured(rules, b, m, u)
    ensures Measured(rules, a + b, n + m, t + u)
  {
    Expansion.NodesAppend(a, b);
    TextAppend(a, b);
  }

  /**
    * Where repeated keys are refused, a tree read from a node without aliases has exactly the
    * nodes its events were charged for, and their text as far as it stays text.
    */
  lemma {:induction false} TreeIsItsEvents(rules: Rules, n: Node, env: Env)
    requires NoAliases(n) && rules.duplicateKeys == Refuse && Denote(rules, n, env).Ok?
    ensures var v := Denote(rules, n, env).value.0; Measured(rules, Spell(n), Nodes(v), Text(v))
    decreases n
  {
    match n
    case ScalarNode(text, style, name, tag) =>
      Expansion.NodesOfOne(Scalar(text, style, name, tag));
      TextOfOne(Scalar(text, style, name, tag));
    case SequenceNode(name, items) =>
      ItemsAreTheirEvents(rules, items, env);
      Wrapped(rules, SequenceStart(name), SpellAll(items), SequenceEnd);
    case MappingNode(name, pairs) =>
      PairsAreTheirEvents(rules, pairs, env);
      Wrapped(rules, MappingStart(name), SpellPairs(pairs), MappingEnd);
  }

  lemma Wrapped(rules: Rules, open: Event, body: seq<Event>, close: Event)
    requires (open.SequenceStart? || open.MappingStart?) && (close == SequenceEnd || close == MappingEnd)
    ensures NodesOf([open] + body + [close]) == 1 + NodesOf(body)
    ensures TextRead([open] + body + [close]) == TextRead(body)
  {
    Expansion.NodesOfWrapped(open, body, close);
    Expansion.NodesOfOne(open);
    Expansion.NodesOfOne(close);
    TextOfWrapped(open, body, close);
  }

  lemma {:induction false} ItemsAreTheirEvents(rules: Rules, items: seq<Node>, env: Env)
    requires NoAliasesIn(items) && rules.duplicateKeys == Refuse && DenoteItems(rules, items, env).Ok?
    ensures var vs := DenoteItems(rules, items, env).value.0;
      Measured(rules, SpellAll(items), NodesAll(vs), TextAll(vs))
    decreases items
  {
    if items != [] {
      ItemsAreTheirEvents(rules, Front(items), env);
      var (vs, env1) := DenoteItems(rules, Front(items), env).value;
      TreeIsItsEvents(rules, Last(items), env1);
      var v := Denote(rules, Last(items), env1).value.0;
      MeasuredAppend(
        rules, SpellAll(Front(items)), NodesAll(vs), TextAll(vs), Spell(Last(items)), Nodes(v), Text(v));
      assert Front(vs + [v]) == vs && Last(vs + [v]) == v;
    }
  }

  lemma {:induction false} PairsAreTheirEvents(rules: Rules, pairs: seq<Pair>, env: Env)
    requires NoAliasesInPairs(pairs) && rules.duplicateKeys == Refuse && DenotePairs(rules, pairs, env).Ok?
    ensures var es := DenotePairs(rules, pairs, env).value.0;
      Measured(rules, SpellPairs(pairs), NodesOfEntries(es), TextOfEntries(es))
    decreases pairs
  {
    if pairs != [] {
      PairsAreTheirEvents(rules, Front(pairs), env);
      var (es, env1) := DenotePairs(rules, Front(pairs), env).value;
      var v := PairIsItsEvents(rules, Last(pairs), es, env1);
      var key := DenoteKey(rules, Last(pairs).key, env1).value;
      MeasuredAppend(rules, SpellPairs(Front(pairs)), NodesOfEntries(es), TextOfEntries(es),
                     SpellPair(Last(pairs)), 1 + Nodes(v), Utf8Len(key) + Text(v));
      var grown := es + [Entry(key, v)];
      assert Front(grown) == es && Last(grown) == Entry(key, v);
    }
  }

  lemma {:induction false} PairIsItsEvents(rules: Rules, pair: Pair, es: seq<Entry>, env: Env) returns (v: Value)
    requires NoAliasesInPair(pair) && rules.duplicateKeys == Refuse && DenotePair(rules, pair, es, env).Ok?
    ensures DenoteKey(rules, pair.key, env).Ok?
    ensures var key := DenoteKey(rules, pair.key, env).value;
      && DenotePair(rules, pair, es, env).value.0 == es + [Entry(key, v)]
      && Measured(rules, SpellPair(pair), 1 + Nodes(v), Utf8Len(key) + Text(v))
    decreases pair
  {
    v := Denote(rules, pair.value, env).value.0;
    TreeIsItsEvents(rules, pair.value, env);
    var key := DenoteKey(rules, pair.key, env).value;
    Expansion.NodesOfOne(KeyEvent(pair.key));
    TextOfOne(KeyEvent(pair.key));
    MeasuredAppend(rules, [KeyEvent(pair.key)], 1, Utf8Len(key), Spell(pair.value), Nodes(v), Text(v));
  }

  // ----- the height is the nesting of the deepest collection -----

  /** The collections around the node at `at`, itself included. */
  ghost function NestingAt(v: Value, at: seq<nat>): nat
    requires Query.Along(Query.Ref([], v), at).Some?
  {
    |at| + if Query.Along(Query.Ref([], v), at).value.node.IsScalar() then 0 else 1
  }

  lemma {:induction false} AlongFromRoot(r: Query.Ref, q: Query.Ref, at: seq<nat>)
    requires r.node == q.node
    ensures Query.Along(r, at).Some? <==> Query.Along(q, at).Some?
    ensures Query.Along(r, at).Some? ==> Query.Along(r, at).value.node == Query.Along(q, at).value.node
    decreases |at|
  {
    if at != [] && Query.Enters(r.node, at[0]) {
      var child := Query.Entered(r.node, at[0]);
      AlongFromRoot(Query.Ref(r.at + [at[0]], child), Query.Ref(q.at + [at[0]], child), at[1..]);
    }
  }

  lemma {:induction false} ItemIsLower(items: seq<Value>, i: nat)
    requires i < |items|
    ensures Height(items[i]) <= HeightAll(items)
    decreases |items|
  {
    if i < |items| - 1 {
      ItemIsLower(Front(items), i);
    }
  }

  lemma {:induction false} EntryIsLower(entries: seq<Entry>, i: nat)
    requires i < |entries|
    ensures Height(entries[i].value) <= HeightOfEntries(entries)
    decreases |entries|
  {
    if i < |entries| - 1 {
      EntryIsLower(Front(entries), i);
    }
  }

  /** No node stands deeper than the height says. */
  lemma {:induction false} NoneIsDeeper(v: Value, at: seq<nat>)
    requires Query.Along(Query.Ref([], v), at).Some?
    ensures NestingAt(v, at) <= Height(v)
    decreases |at|
  {
    if at != [] {
      var child := Query.Entered(v, at[0]);
      AlongFromRoot(Query.Ref([] + [at[0]], child), Query.Ref([], child), at[1..]);
      NoneIsDeeper(child, at[1..]);
      if v.Sequence? {
        ItemIsLower(v.items, at[0]);
      } else {
        EntryIsLower(v.entries, at[0]);
      }
    }
  }

  /** And some node stands that deep. */
  lemma {:induction false} OneIsAsDeep(v: Value) returns (at: seq<nat>)
    ensures Query.Along(Query.Ref([], v), at).Some? && NestingAt(v, at) == Height(v)
    decreases v
  {
    at := [];
    match v
    case Sequence(items) =>
      if HeightAll(items) > 0 {
        var i := TallestItem(items);
        var below := OneIsAsDeep(items[i]);
        AlongFromRoot(Query.Ref([] + [i], items[i]), Query.Ref([], items[i]), below);
        at := [i] + below;
      }
    case Mapping(entries) =>
      if HeightOfEntries(entries) > 0 {
        var i := TallestEntry(entries);
        var below := OneIsAsDeep(entries[i].value);
        AlongFromRoot(Query.Ref([] + [i], entries[i].value), Query.Ref([], entries[i].value), below);
        at := [i] + below;
      }
    case _ =>
  }

  lemma {:induction false} TallestItem(items: seq<Value>) returns (i: nat)
    requires HeightAll(items) > 0
    ensures i < |items| && Height(items[i]) == HeightAll(items)
    decreases |items|
  {
    if Height(Last(items)) == HeightAll(items) {
      i := |items| - 1;
    } else {
      i := TallestItem(Front(items));
    }
  }

  lemma {:induction false} TallestEntry(entries: seq<Entry>) returns (i: nat)
    requires HeightOfEntries(entries) > 0
    ensures i < |entries| && Height(entries[i].value) == HeightOfEntries(entries)
    decreases |entries|
  {
    if Height(Last(entries).value) == HeightOfEntries(entries) {
      i := |entries| - 1;
    } else {
      i := TallestEntry(Front(entries));
    }
  }

  /** So the height is the number of collections around the deepest node, the node included. */
  lemma HeightIsDeepest(v: Value, n: nat)
    ensures Height(v) <= n <==> forall at :: Query.Along(Query.Ref([], v), at).Some? ==> NestingAt(v, at) <= n
  {
    var deepest := OneIsAsDeep(v);
    forall at | Query.Along(Query.Ref([], v), at).Some? ensures NestingAt(v, at) <= Height(v) {
      NoneIsDeeper(v, at);
    }
  }

  // ----- the owned tree is measured as the borrowed one, and a tag is not measured -----

  function Owned(v: Value): OwnedTree.Value
    decreases v
  {
    match v
    case Null => OwnedTree.Null
    case Bool(b) => OwnedTree.Bool(b)
    case Number(n) => OwnedTree.Number(n)
    case String(s) => OwnedTree.String(s)
    case Sequence(items) => OwnedTree.Sequence(OwnedItems(items))
    case Mapping(entries) => OwnedTree.Mapping(OwnedEntries(entries))
  }

  function OwnedItems(items: seq<Value>): seq<OwnedTree.Value>
    decreases items
  {
    if items == [] then [] else OwnedItems(Front(items)) + [Owned(Last(items))]
  }

  function OwnedEntries(entries: seq<Entry>): seq<OwnedTree.Entry>
    decreases entries
  {
    if entries == [] then []
    else OwnedEntries(Front(entries)) + [OwnedTree.Entry(Last(entries).key, Owned(Last(entries).value))]
  }

  lemma TagsAreNotMeasured(tag: string, v: OwnedTree.Value)
    ensures var t := OwnedTree.Tagged(tag, v);
      OwnedTree.Nodes(t) == OwnedTree.Nodes(v) && OwnedTree.Text(t) == OwnedTree.Text(v)
      && OwnedTree.Height(t) == OwnedTree.Height(v)
  {
  }

  lemma {:induction false} OwnedIsMeasuredAlike(v: Value)
    ensures var o := Owned(v);
      OwnedTree.Nodes(o) == Nodes(v) && OwnedTree.Text(o) == Text(v) && OwnedTree.Height(o) == Height(v)
    decreases v
  {
    match v
    case Sequence(items) => ItemsAreMeasuredAlike(items);
    case Mapping(entries) => EntriesAreMeasuredAlike(entries);
    case _ =>
  }

  lemma {:induction false} ItemsAreMeasuredAlike(items: seq<Value>)
    ensures var o := OwnedItems(items);
      && OwnedTree.NodesAll(o) == NodesAll(items) && OwnedTree.TextAll(o) == TextAll(items)
      && OwnedTree.HeightAll(o) == HeightAll(items)
    decreases items
  {
    if items != [] {
      ItemsAreMeasuredAlike(Front(items));
      OwnedIsMeasuredAlike(Last(items));
      var o := OwnedItems(items);
      assert Front(o) == OwnedItems(Front(items)) && Last(o) == Owned(Last(items));
    }
  }

  lemma {:induction false} EntriesAreMeasuredAlike(entries: seq<Entry>)
    ensures var o := OwnedEntries(entries);
      && OwnedTree.NodesOfEntries(o) == NodesOfEntries(entries) && OwnedTree.TextOfEntries(o) == TextOfEntries(entries)
      && OwnedTree.HeightOfEntries(o) == HeightOfEntries(entries)
    decreases entries
  {
    if entries != [] {
      EntriesAreMeasuredAlike(Front(entries));
      OwnedIsMeasuredAlike(Last(entries).value);
      var o := OwnedEntries(entries);
      assert Front(o) == OwnedEntries(Front(entries));
    }
  }
}
