/** What every reachable state of the builder keeps, whatever events it is fed. */
module Invariants {
  import opened Common
  import opened Errors
  import opened Events
  import opened Limits
  import opened Metering
  import opened Tree
  import opened Machine
  import Builder

  /** Within the length limits, with distinct keys, at every level. */
  ghost predicate Bounded(c: Config, v: Value)
    decreases v
  {
    match v
    case Sequence(items) => |items| <= c.maxSequenceLength && forall i :: 0 <= i < |items| ==> Bounded(c, items[i])
    case Mapping(entries) =>
      && |entries| <= c.maxMappingKeys
      && DistinctKeys(entries)
      && forall i :: 0 <= i < |entries| ==> Bounded(c, entries[i].value)
    case _ => true
  }

  /** `v` may stand inside `level` open collections. */
  ghost predicate Fits(c: Config, v: Value, level: nat) {
    Bounded(c, v) && level + Height(v) <= EffectiveMaxDepth(c.maxDepth)
  }

  /** The open collection `f`, itself at nesting `level`. */
  ghost predicate FrameFits(c: Config, f: Frame, level: nat) {
    match f
    case SequenceFrame(items, _) =>
      |items| <= c.maxSequenceLength && forall i :: 0 <= i < |items| ==> Fits(c, items[i], level)
    case _ => EntriesFit(c, f.entries, level)
  }

  ghost predicate EntriesFit(c: Config, entries: seq<Entry>, level: nat) {
    && |entries| <= c.maxMappingKeys
    && DistinctKeys(entries)
    && forall i :: 0 <= i < |entries| ==> Fits(c, entries[i].value, level)
  }

  ghost predicate AnchorsFit(c: Config, anchors: map<string, Anchored>) {
    forall name :: name in anchors ==>
      Fits(c, anchors[name].value, 0) && anchors[name].cost == Measure(anchors[name].value)
  }

  ghost predicate StackFits(c: Config, stack: seq<Frame>) {
    && |stack| <= EffectiveMaxDepth(c.maxDepth)
    && forall i :: 0 <= i < |stack| ==> FrameFits(c, stack[i], i + 1)
  }

  /**
    * The depth counter is the number of open collections and within the limit; every open or
    * finished collection is within its length limit and has distinct keys; whatever closes
    * from here nests within the limit; every anchor keeps the cost of its value.
    */
  ghost predicate Inv(c: Config, s: State) {
    && s.depth == |s.stack|
    && StackFits(c, s.stack)
    && AnchorsFit(c, s.anchors)
    && (s.result.Some? ==> Fits(c, s.result.value, 0))
  }

  lemma {:induction false} ItemsHeight(items: seq<Value>, h: nat)
    requires forall i :: 0 <= i < |items| ==> Height(items[i]) <= h
    ensures HeightAll(items) <= h
    decreases |items|
  {
    if items != [] {
      ItemsHeight(Front(items), h);
    }
  }

  lemma {:induction false} EntriesHeight(entries: seq<Entry>, h: nat)
    requires forall i :: 0 <= i < |entries| ==> Height(entries[i].value) <= h
    ensures HeightOfEntries(entries) <= h
    decreases |entries|
  {
    if entries != [] {
      EntriesHeight(Front(entries), h);
    }
  }

  lemma ClosedFits(c: Config, f: Frame, level: nat)
    requires 0 < level <= EffectiveMaxDepth(c.maxDepth) && FrameFits(c, f, level)
    ensures Fits(c, Closed(f), level - 1)
  {
    match f
    case SequenceFrame(items, _) =>
      assert forall i :: 0 <= i < |items| ==> Fits(c, items[i], level);
      ItemsHeight(items, EffectiveMaxDepth(c.maxDepth) - level);
    case KeyFrame(entries, _) => EntriesHeight(entries, EffectiveMaxDepth(c.maxDepth) - level);
    case ValueFrame(entries, _, _) => EntriesHeight(entries, EffectiveMaxDepth(c.maxDepth) - level);
  }

  lemma InsertKeepsEntries(c: Config, entries: seq<Entry>, key: string, v: Value, level: nat)
    requires EntriesFit(c, entries, level) && Fits(c, v, level)
    ensures InsertEntry(c, entries, key, v).Ok? ==> EntriesFit(c, InsertEntry(c, entries, key, v).value, level)
  {
    var i := IndexOf(entries, key);
    assert forall j :: 0 <= j < |entries| ==> Fits(c, entries[j].value, level);
  }

  lemma PushKeepsInv(c: Config, s: State, v: Value)
    requires Inv(c, s) && Fits(c, v, |s.stack|)
    ensures PushValue(c, s, v).Ok? ==> Inv(c, PushValue(c, s, v).value)
  {
    if s.stack != [] {
      var level := |s.stack|;
      var top := Last(s.stack);
      assert FrameFits(c, top, level);
      match top
      case SequenceFrame(items, name) =>
        assert forall i :: 0 <= i < |items| ==> Fits(c, items[i], level);
      case ValueFrame(entries, key, name) => InsertKeepsEntries(c, entries, key, v, level);
      case KeyFrame(_, _) =>
    } else {
      assert Fits(c, v, 0);
    }
  }

  lemma KeyKeepsInv(c: Config, s: State, key: string)
    requires Inv(c, s) && AtKey(s)
    ensures Inv(c, SetKey(s, key))
  {
    var top := Last(s.stack);
    assert FrameFits(c, top, |s.stack|);
    assert EntriesFit(c, top.entries, |s.stack|);
  }

  lemma RecordKeepsInv(c: Config, s: State, name: Option<string>, v: Value)
    requires Inv(c, s) && Fits(c, v, 0)
    ensures Inv(c, s.(anchors := Record(s.anchors, name, v)))
  {
  }

  lemma OpenKeepsInv(c: Config, s: State, frame: Frame)
    requires Inv(c, s)
    requires (frame.SequenceFrame? && frame.items == []) || (frame.KeyFrame? && frame.entries == [])
    requires OpenCollection(c, s).Ok?
    ensures var s1 := OpenCollection(c, s).value;
      Inv(c, s1.(stack := s1.stack + [frame]))
  {
    assert FrameFits(c, frame, |s.stack| + 1);
  }

  lemma CloseKeepsInv(c: Config, s: State)
    requires Inv(c, s)
    ensures CloseCollection(c, s).Ok? ==> Inv(c, CloseCollection(c, s).value)
  {
    if s.stack != [] {
      var top := Last(s.stack);
      var v := Closed(top);
      assert FrameFits(c, top, |s.stack|);
      ClosedFits(c, top, |s.stack|);
      var s1 := s.(depth := s.depth - 1, stack := Front(s.stack));
      assert Inv(c, s1);
      assert Fits(c, v, 0);
      RecordKeepsInv(c, s1, top.name, v);
      PushKeepsInv(c, s1.(anchors := Record(s.anchors, top.name, v)), v);
    }
  }

  /** An alias splices in a whole subtree; the expansion charge is what keeps it within the depth. */
  lemma AliasKeepsInv(c: Config, s: State, name: string)
    requires Inv(c, s)
    ensures OnAlias(c, s, name).Ok? ==> Inv(c, OnAlias(c, s, name).value)
  {
    var charged := ChargeAlias(c, s.meter);
    if charged.Ok? && name in s.anchors {
      var a := s.anchors[name];
      var m := ChargeExpansion(c, charged.value, a.cost, s.depth);
      if m.Ok? {
        var s1 := s.(meter := m.value);
        assert Inv(c, s1);
        if AtKey(s1) {
          var key := AliasKey(c.rules, a.value);
          if key.Ok? {
            KeyKeepsInv(c, s1, key.value);
          }
        } else {
          assert Fits(c, a.value, 0);
          assert Fits(c, a.value, |s.stack|);
          PushKeepsInv(c, s1, a.value);
        }
      }
    }
  }

  lemma ScalarKeepsInv(c: Config, s: State, text: string, style: Style, name: Option<string>, tag: Option<Tag>)
    requires Inv(c, s)
    ensures OnScalar(c, s, text, style, name, tag).Ok? ==> Inv(c, OnScalar(c, s, text, style, name, tag).value)
  {
    if AtKey(s) {
      KeyKeepsInv(c, s, text);
      var m := ChargeMergePolicy(c, s.meter);
      if m.Ok? {
        KeyKeepsInv(c, s.(meter := m.value), text);
      }
    } else {
      var v := ResolveScalar(c.rules, text, style, tag);
      assert Fits(c, v, |s.stack|);
      RecordKeepsInv(c, s, name, v);
      PushKeepsInv(c, s.(anchors := Record(s.anchors, name, v)), v);
    }
  }

  lemma StepKeepsInv(c: Config, s0: State, e: Event)
    requires Inv(c, s0)
    ensures Step(c, s0, e).Ok? ==> Inv(c, Step(c, s0, e).value)
  {
    var m := ChargeEvent(c, s0.meter, e);
    if m.Ok? {
      var s := s0.(meter := m.value);
      assert Inv(c, s);
      match e
      case Scalar(text, style, name, tag) => ScalarKeepsInv(c, s, text, style, name, tag);
      case SequenceStart(name) =>
        if OpenCollection(c, s).Ok? {
          OpenKeepsInv(c, s, SequenceFrame([], name));
        }
      case MappingStart(name) =>
        if OpenCollection(c, s).Ok? {
          OpenKeepsInv(c, s, KeyFrame([], name));
        }
      case SequenceEnd => CloseKeepsInv(c, s);
      case MappingEnd => CloseKeepsInv(c, s);
      case Alias(name) => AliasKeepsInv(c, s, name);
      case _ =>
    }
  }

  /** Every state a run reaches, on any events at all, satisfies the invariant. */
  lemma {:induction false} RunKeepsInv(c: Config, step: Stepper, s: State, events: seq<Event>)
    requires Steps(c, step) && Inv(c, s)
    ensures Run(step, s, events).Ok? ==> Inv(c, Run(step, s, events).value)
    decreases |events|
  {
    if events != [] {
      RunKeepsInv(c, step, s, Front(events));
      var before := Run(step, s, Front(events));
      if before.Ok? {
        StepKeepsInv(c, before.value, Last(events));
        assert step(before.value, Last(events)) == Step(c, before.value, Last(events));
      }
    }
  }

  /** A loaded tree never nests deeper than the limit, nor than 256, aliases expanded. */
  lemma LoadedIsBounded(c: Config, events: seq<Event>)
    ensures var r := Builder.Loaded(c, events);
      r.Ok? ==> Bounded(c, r.value) && Height(r.value) <= c.maxDepth && Height(r.value) <= 256
  {
    assert Inv(c, START);
    RunKeepsInv(c, StepOf(c), START, events);
    assert Fits(c, Null, 0);
  }
}
