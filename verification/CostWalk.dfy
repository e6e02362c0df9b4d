/** The non-recursive cost walk over a borrowed tree. */
module CostWalk {
  import opened Common
  import opened Tree
  import Metering

  datatype Work = Visit(value: Value) | Close

  /** The running tally; `level` is the nesting of the collections now open. */
  datatype Tally = Tally(nodes: usize, text: usize, height: nat, jump: usize, level: nat) {
    function Scalar(len: nat): Tally {
      Tally(SatAdd(nodes, 1), SatAdd(text, len), height, SatAdd(jump, 1), level)
    }

    function Open(): Tally {
      Tally(SatAdd(nodes, 1), text, Max(height, level + 1), SatAdd(jump, 1), level + 1)
    }

    function CloseOne(): Tally { this.(level := SatSub(level, 1)) }

    /** What tallying a whole tree at the present level must come to. */
    ghost function Plus(v: Value): Tally {
      Tally(SatAdd(nodes, Nodes(v)), SatAdd(text, Text(v)), Max(height, level + Height(v)), SatAdd(jump, Nodes(v)),
        level)
    }

    ghost function PlusAll(items: seq<Value>): Tally
      decreases |items|
    {
      if items == [] then this else Plus(Last(items)).PlusAll(Front(items))
    }

    ghost function PlusValues(entries: seq<Entry>): Tally
      decreases |entries|
    {
      if entries == [] then this else Plus(Last(entries).value).PlusValues(Front(entries))
    }

    ghost function PlusKeys(entries: seq<Entry>): Tally
      decreases |entries|
    {
      if entries == [] then this else PlusKeys(Front(entries)).Scalar(Utf8Len(Last(entries).key))
    }

    /** No open collection is deeper than the greatest nesting seen. */
    ghost predicate Level() { level <= height }
  }

  lemma {:induction false} PlusAllTotals(t: Tally, items: seq<Value>)
    requires t.Level()
    ensures t.PlusAll(items) == Tally(
      SatAdd(t.nodes, NodesAll(items)), SatAdd(t.text, TextAll(items)),
      Max(t.height, t.level + HeightAll(items)), SatAdd(t.jump, NodesAll(items)), t.level)
    decreases |items|
  {
    if items != [] {
      PlusAllTotals(t.Plus(Last(items)), Front(items));
    }
  }

  ghost function KeyText(entries: seq<Entry>): nat {
    if entries == [] then 0 else KeyText(Front(entries)) + Utf8Len(Last(entries).key)
  }

  lemma {:induction false} PlusKeysTotals(t: Tally, entries: seq<Entry>)
    ensures t.PlusKeys(entries) == t.(
      nodes := SatAdd(t.nodes, |entries|), text := SatAdd(t.text, KeyText(entries)), jump := SatAdd(t.jump, |entries|))
  {
    if entries != [] {
      PlusKeysTotals(t, Front(entries));
    }
  }

  lemma {:induction false} PlusValuesTotals(t: Tally, entries: seq<Entry>)
    requires t.Level()
    ensures KeyText(entries) <= TextOfEntries(entries) && |entries| <= NodesOfEntries(entries)
    ensures t.PlusValues(entries) == Tally(
      SatAdd(t.nodes, NodesOfEntries(entries) - |entries|), SatAdd(t.text, TextOfEntries(entries) - KeyText(entries)),
      Max(t.height, t.level + HeightOfEntries(entries)), SatAdd(t.jump, NodesOfEntries(entries) - |entries|), t.level)
    decreases |entries|
  {
    if entries != [] {
      PlusValuesTotals(t.Plus(Last(entries).value), Front(entries));
    }
  }

  lemma SequenceIsItsItems(t: Tally, items: seq<Value>)
    requires t.Level()
    ensures t.Open().PlusAll(items).CloseOne() == t.Plus(Sequence(items))
  {
    PlusAllTotals(t.Open(), items);
  }

  lemma MappingIsItsEntries(t: Tally, entries: seq<Entry>)
    requires t.Level()
    ensures t.Open().PlusKeys(entries).PlusValues(entries).CloseOne() == t.Plus(Mapping(entries))
  {
    PlusKeysTotals(t.Open(), entries);
    PlusValuesTotals(t.Open().PlusKeys(entries), entries);
  }

  lemma ScalarIsItself(t: Tally, v: Value)
    requires t.Level() && v.IsScalar()
    ensures t.Plus(v) == t.Scalar(Text(v))
  {
  }

  /** `pending.extend(items.iter().map(Visit))`. */
  function VisitAll(items: seq<Value>): seq<Work> {
    seq(|items|, i requires 0 <= i < |items| => Visit(items[i]))
  }

  function VisitValues(entries: seq<Entry>): seq<Work> {
    seq(|entries|, i requires 0 <= i < |entries| => Visit(entries[i].value))
  }

  /** The tally the waiting entries lead to, popped from the end. */
  ghost function Finish(t: Tally, pending: seq<Work>): Tally
    decreases |pending|
  {
    if pending == [] then t
    else Finish(match Last(pending) case Close => t.CloseOne() case Visit(v) => t.Plus(v), Front(pending))
  }

  /** The work left: every visit leaves fewer nodes, every close one entry less. */
  ghost function Weight(pending: seq<Work>): nat {
    if pending == [] then 0
    else Weight(Front(pending)) + match Last(pending) case Close => 1 case Visit(v) => 2 * Nodes(v)
  }

  lemma PopOne(t: Tally, p: seq<Work>, w: Work)
    ensures Finish(t, p + [w]) == Finish(match w case Close => t.CloseOne() case Visit(v) => t.Plus(v), p)
    ensures Weight(p + [w]) == Weight(p) + match w case Close => 1 case Visit(v) => 2 * Nodes(v)
  {
    assert Front(p + [w]) == p;
  }

  lemma {:induction false} PopAll(t: Tally, p: seq<Work>, items: seq<Value>)
    ensures Finish(t, p + VisitAll(items)) == Finish(t.PlusAll(items), p)
    ensures Weight(p + VisitAll(items)) == Weight(p) + 2 * NodesAll(items)
    decreases |items|
  {
    if items == [] {
      assert p + VisitAll(items) == p;
    } else {
      assert p + VisitAll(items) == p + VisitAll(Front(items)) + [Visit(Last(items))];
      PopOne(t, p + VisitAll(Front(items)), Visit(Last(items)));
      PopAll(t.Plus(Last(items)), p, Front(items));
    }
  }

  lemma {:induction false} PopValues(t: Tally, p: seq<Work>, entries: seq<Entry>)
    ensures Finish(t, p + VisitValues(entries)) == Finish(t.PlusValues(entries), p)
    ensures Weight(p + VisitValues(entries)) + 2 * |entries| == Weight(p) + 2 * NodesOfEntries(entries)
    decreases |entries|
  {
    if entries == [] {
      assert p + VisitValues(entries) == p;
    } else {
      assert p + VisitValues(entries) == p + VisitValues(Front(entries)) + [Visit(Last(entries).value)];
      PopOne(t, p + VisitValues(Front(entries)), Visit(Last(entries).value));
      PopValues(t.Plus(Last(entries).value), p, Front(entries));
    }
  }

  lemma VisitSequence(t: Tally, p: seq<Work>, items: seq<Value>)
    requires t.Level()
    ensures Finish(t.Open(), p + [Close] + VisitAll(items)) == Finish(t.Plus(Sequence(items)), p)
    ensures Weight(p + [Close] + VisitAll(items)) < Weight(p + [Visit(Sequence(items))])
  {
    PopAll(t.Open(), p + [Close], items);
    PopOne(t.Open().PlusAll(items), p, Close);
    SequenceIsItsItems(t, items);
    PopOne(t, p, Visit(Sequence(items)));
  }

  lemma VisitMapping(t: Tally, p: seq<Work>, entries: seq<Entry>)
    requires t.Level()
    ensures Finish(t.Open().PlusKeys(entries), p + [Close] + VisitValues(entries)) ==
      Finish(t.Plus(Mapping(entries)), p)
    ensures Weight(p + [Close] + VisitValues(entries)) < Weight(p + [Visit(Mapping(entries))])
  {
    PopValues(t.Open().PlusKeys(entries), p + [Close], entries);
    PopOne(t.Open().PlusKeys(entries).PlusValues(entries), p, Close);
    MappingIsItsEntries(t, entries);
    PopOne(t, p, Visit(Mapping(entries)));
  }

  /** The mapping arm: each key is tallied where it stands, each value waits. */
  method TallyEntries(tally: Tally, base: seq<Work>, entries: seq<Entry>) returns (t: Tally, pending: seq<Work>)
    ensures t == tally.PlusKeys(entries) && t.level == tally.level && t.height == tally.height
    ensures pending == base + VisitValues(entries)
  {
    t, pending := tally, base;
    for i := 0 to |entries|
      invariant t == tally.PlusKeys(entries[..i]) && t.level == tally.level && t.height == tally.height
      invariant pending == base + VisitValues(entries[..i])
    {
      ghost var head := entries[..i + 1];
      assert Front(head) == entries[..i] && Last(head) == entries[i];
      t := t.Scalar(Utf8Len(entries[i].key));
      pending := pending + [Visit(entries[i].value)];
    }
    assert entries[..|entries|] == entries;
  }

  /** The arm of one visited value. */
  method VisitOne(tally: Tally, base: seq<Work>, value: Value) returns (t: Tally, pending: seq<Work>)
    requires tally.Level()
    ensures t.Level() && Finish(t, pending) == Finish(tally.Plus(value), base)
    ensures Weight(pending) < Weight(base + [Visit(value)])
  {
    match value
    case Sequence(items) =>
      VisitSequence(tally, base, items);
      t, pending := tally.Open(), base + [Close] + VisitAll(items);
    case Mapping(entries) =>
      VisitMapping(tally, base, entries);
      t, pending := TallyEntries(tally.Open(), base + [Close], entries);
    case String(s) =>
      PopOne(tally, base, Visit(value));
      ScalarIsItself(tally, value);
      t, pending := tally.Scalar(Utf8Len(s)), base;
    case _ =>
      PopOne(tally, base, Visit(value));
      ScalarIsItself(tally, value);
      t, pending := tally.Scalar(0), base;
  }

  /** Walks without recursion: every opened collection leaves a `Close` below its children. */
  method BorrowedCost(root: Value) returns (cost: Metering.AliasCost)
    ensures cost == Metering.Measure(root)
  {
    var tally := Tally(0, 0, 0, 0, 0);
    var pending := [Visit(root)];
    PopOne(tally, [], Visit(root));
    while pending != []
      invariant tally.Level() && Finish(tally, pending) == Tally(0, 0, 0, 0, 0).Plus(root)
      decreases Weight(pending)
    {
      var step := Last(pending);
      assert pending == Front(pending) + [step];
      pending := Front(pending);
      PopOne(tally, pending, step);
      match step
      case Close => tally := tally.CloseOne();
      case Visit(value) => tally, pending := VisitOne(tally, pending, value);
    }
    cost := Metering.AliasCost(tally.nodes, tally.text, tally.height, tally.jump);
  }
}
