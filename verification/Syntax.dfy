/** YAML documents as trees, and the event streams that spell them. */
module Syntax {
  import opened Common
  import opened Events

  datatype Node =
    | ScalarNode(text: string, style: Style, name: Option<string>, tag: Option<Tag>)
    | AliasNode(target: string)
    | SequenceNode(name: Option<string>, items: seq<Node>)
    | MappingNode(name: Option<string>, pairs: seq<Pair>)

  /** A key is a scalar or an alias; the builder discards a collection in a key position. */
  datatype Key =
    | ScalarKey(text: string, style: Style, name: Option<string>, tag: Option<Tag>)
    | KeyAlias(target: string)

  datatype Pair = Pair(key: Key, value: Node)

  function KeyEvent(k: Key): Event {
    match k
    case ScalarKey(text, style, name, tag) => Scalar(text, style, name, tag)
    case KeyAlias(target) => Alias(target)
  }

  function Spell(n: Node): seq<Event>
    decreases n
  {
    match n
    case ScalarNode(text, style, name, tag) => [Scalar(text, style, name, tag)]
    case AliasNode(target) => [Alias(target)]
    case SequenceNode(name, items) => [SequenceStart(name)] + SpellAll(items) + [SequenceEnd]
    case MappingNode(name, pairs) => [MappingStart(name)] + SpellPairs(pairs) + [MappingEnd]
  }

  function SpellAll(items: seq<Node>): seq<Event>
    decreases items
  {
    if items == [] then [] else SpellAll(Front(items)) + Spell(Last(items))
  }

  function SpellPairs(pairs: seq<Pair>): seq<Event>
    decreases pairs
  {
    if pairs == [] then []
    else SpellPairs(Front(pairs)) + SpellPair(Last(pairs))
  }

  function SpellPair(pair: Pair): seq<Event>
    decreases pair
  {
    [KeyEvent(pair.key)] + Spell(pair.value)
  }

  /** A stream of documents, up to its end event. */
  function SpellStream(docs: seq<Node>): seq<Event> {
    if docs == [] then [StreamStart]
    else SpellStream(Front(docs)) + ([DocumentStart] + Spell(Last(docs)) + [DocumentEnd])
  }

  // ----- the events say which document they spell -----

  ghost predicate Opens(e: Event) { e.SequenceStart? || e.MappingStart? }

  ghost predicate EndsNode(events: seq<Event>) {
    && events != []
    && (Last(events).Scalar? || Last(events).Alias? || Last(events).SequenceEnd? || Last(events).MappingEnd?)
  }

  /** The last event of a node closes it, or is all of it. */
  lemma SpellEnds(n: Node)
    ensures EndsNode(Spell(n))
    ensures n.SequenceNode? <==> Last(Spell(n)) == SequenceEnd
    ensures n.MappingNode? <==> Last(Spell(n)) == MappingEnd
    ensures n.AliasNode? <==> Last(Spell(n)).Alias?
  {
  }

  lemma LastOfJoined(a: seq<Event>, b: seq<Event>)
    requires b != []
    ensures a + b != [] && Last(a + b) == Last(b) && Front(a + b) == a + Front(b)
  {
  }

  lemma CutLast(a: seq<Event>, x: Event, b: seq<Event>, y: Event)
    requires a + [x] == b + [y]
    ensures a == b && x == y
  {
    LastOfJoined(a, [x]);
    LastOfJoined(b, [y]);
    assert Front(a + [x]) == a && Front(b + [y]) == b;
  }

  /** Events that end with a node end with one node only. */
  lemma {:induction false} SpellIsUnique(a: seq<Event>, n: Node, b: seq<Event>, m: Node)
    requires a + Spell(n) == b + Spell(m)
    ensures n == m && a == b
    decreases n, 1
  {
    SpellEnds(n);
    SpellEnds(m);
    LastOfJoined(a, Spell(n));
    LastOfJoined(b, Spell(m));
    match n
    case ScalarNode(_, _, _, _) => CutLast(a, Spell(n)[0], b, Spell(m)[0]);
    case AliasNode(_) => CutLast(a, Spell(n)[0], b, Spell(m)[0]);
    case SequenceNode(_, _) => SequenceIsUnique(a, n, b, m);
    case MappingNode(_, _) => MappingIsUnique(a, n, b, m);
  }

  lemma {:induction false} SequenceIsUnique(a: seq<Event>, n: Node, b: seq<Event>, m: Node)
    requires n.SequenceNode? && m.SequenceNode? && a + Spell(n) == b + Spell(m)
    ensures n == m && a == b
    decreases n, 0
  {
    var a1, b1 := a + [SequenceStart(n.name)], b + [SequenceStart(m.name)];
    assert a + Spell(n) == a1 + SpellAll(n.items) + [SequenceEnd];
    assert b + Spell(m) == b1 + SpellAll(m.items) + [SequenceEnd];
    CutLast(a1 + SpellAll(n.items), SequenceEnd, b1 + SpellAll(m.items), SequenceEnd);
    ItemsAreUnique(a1, n.items, b1, m.items);
    CutLast(a, SequenceStart(n.name), b, SequenceStart(m.name));
  }

  lemma {:induction false} MappingIsUnique(a: seq<Event>, n: Node, b: seq<Event>, m: Node)
    requires n.MappingNode? && m.MappingNode? && a + Spell(n) == b + Spell(m)
    ensures n == m && a == b
    decreases n, 0
  {
    var a1, b1 := a + [MappingStart(n.name)], b + [MappingStart(m.name)];
    assert a + Spell(n) == a1 + SpellPairs(n.pairs) + [MappingEnd];
    assert b + Spell(m) == b1 + SpellPairs(m.pairs) + [MappingEnd];
    CutLast(a1 + SpellPairs(n.pairs), MappingEnd, b1 + SpellPairs(m.pairs), MappingEnd);
    PairsAreUnique(a1, n.pairs, b1, m.pairs);
    CutLast(a, MappingStart(n.name), b, MappingStart(m.name));
  }

  lemma {:induction false} ItemsAreUnique(a: seq<Event>, items: seq<Node>, b: seq<Event>, others: seq<Node>)
    requires a != [] && Opens(Last(a)) && b != [] && Opens(Last(b))
    requires a + SpellAll(items) == b + SpellAll(others)
    ensures items == others && a == b
    decreases items
  {
    if items == [] && others == [] {
      assert a + [] == a && b + [] == b;
    } else if items == [] {
      ItemAtEnd(b, others);
      assert a + [] == a;
      NoneOpens(b + SpellAll(Front(others)), Last(others), a);
    } else if others == [] {
      ItemAtEnd(a, items);
      assert b + [] == b;
      NoneOpens(a + SpellAll(Front(items)), Last(items), b);
    } else {
      ItemAtEnd(a, items);
      ItemAtEnd(b, others);
      SpellIsUnique(a + SpellAll(Front(items)), Last(items), b + SpellAll(Front(others)), Last(others));
      ItemsAreUnique(a, Front(items), b, Front(others));
      assert items == Front(items) + [Last(items)] && others == Front(others) + [Last(others)];
    }
  }

  lemma ItemAtEnd(a: seq<Event>, items: seq<Node>)
    requires items != []
    ensures a + SpellAll(items) == a + SpellAll(Front(items)) + Spell(Last(items))
  {
  }

  /** No events that end with a node end with the opening of one. */
  lemma NoneOpens(a: seq<Event>, n: Node, b: seq<Event>)
    requires b != [] && Opens(Last(b))
    ensures a + Spell(n) != b
  {
    SpellEnds(n);
    LastOfJoined(a, Spell(n));
  }

  lemma {:induction false} PairsAreUnique(a: seq<Event>, pairs: seq<Pair>, b: seq<Event>, others: seq<Pair>)
    requires a != [] && Opens(Last(a)) && b != [] && Opens(Last(b))
    requires a + SpellPairs(pairs) == b + SpellPairs(others)
    ensures pairs == others && a == b
    decreases pairs
  {
    if pairs == [] && others == [] {
      assert a + [] == a && b + [] == b;
    } else if pairs == [] {
      PairAtEnd(b, others);
      assert a + [] == a;
      NoneOpens(b + SpellPairs(Front(others)) + [KeyEvent(Last(others).key)], Last(others).value, a);
    } else if others == [] {
      PairAtEnd(a, pairs);
      assert b + [] == b;
      NoneOpens(a + SpellPairs(Front(pairs)) + [KeyEvent(Last(pairs).key)], Last(pairs).value, b);
    } else {
      PairAtEnd(a, pairs);
      PairAtEnd(b, others);
      PairIsUnique(a + SpellPairs(Front(pairs)), Last(pairs), b + SpellPairs(Front(others)), Last(others));
      PairsAreUnique(a, Front(pairs), b, Front(others));
      assert pairs == Front(pairs) + [Last(pairs)] && others == Front(others) + [Last(others)];
    }
  }

  lemma PairAtEnd(a: seq<Event>, pairs: seq<Pair>)
    requires pairs != []
    ensures a + SpellPairs(pairs) ==
      a + SpellPairs(Front(pairs)) + [KeyEvent(Last(pairs).key)] + Spell(Last(pairs).value)
  {
    Regrouped(a, SpellPairs(Front(pairs)), [KeyEvent(Last(pairs).key)], Spell(Last(pairs).value));
  }

  lemma Regrouped(a: seq<Event>, b: seq<Event>, c: seq<Event>, d: seq<Event>)
    ensures a + (b + (c + d)) == a + b + c + d
  {
  }

  lemma {:induction false} PairIsUnique(a: seq<Event>, p: Pair, b: seq<Event>, q: Pair)
    requires a + [KeyEvent(p.key)] + Spell(p.value) == b + [KeyEvent(q.key)] + Spell(q.value)
    ensures p == q && a == b
    decreases p
  {
    SpellIsUnique(a + [KeyEvent(p.key)], p.value, b + [KeyEvent(q.key)], q.value);
    CutLast(a, KeyEvent(p.key), b, KeyEvent(q.key));
  }
}
