/** What becomes of a collection in a key position: it is read, charged and dropped. */
module CollectionKeys {
  import opened Common
  import opened Errors
  import opened Events
  import opened Metering
  import opened Tree
  import opened Machine
  import opened Syntax
  import opened Evaluation
  import opened Meaning

  ghost predicate IsCollection(n: Node) { n.SequenceNode? || n.MappingNode? }

  /** After the events of a collection key the key is still to come, and nothing else is open or changed. */
  lemma CollectionKeyIsDropped(c: Config, step: Stepper, s: State, n: Node)
    requires Steps(c, step) && AtKey(s) && IsCollection(n)
    ensures var r := Run(step, s, Spell(n));
      if r.Ok? then r.value.stack == s.stack && r.value.depth == s.depth && r.value.result == s.result
      else r.error.IsLimit() || Denote(c.rules, n, Values(CtxOf(s))) == Err(r.error)
  {
    LimitsOnlyRefuse(c, n, s.depth, CtxOf(s));
    match n
    case SequenceNode(name, items) => MachineReadsSequence(c, step, s, name, items);
    case MappingNode(name, pairs) => MachineReadsMapping(c, step, s, name, pairs);
  }

  // ----- `? n : b` and then `c: d` -----

  const B := Scalar("b", Quoted, None, None)
  const C := Scalar("c", Quoted, None, None)
  const D := Scalar("d", Quoted, None, None)
  const BEFORE := [StreamStart, DocumentStart, MappingStart(None)]

  function Shifted(n: Node): seq<Event> { BEFORE + Spell(n) + [B] + [C] + [D] + [MappingEnd] + [DocumentEnd] }

  /** A run that has left `stack` and `result`, or was refused by a limit or by the fault of `n`. */
  ghost predicate Leaves(c: Config, n: Node, r: Result<State, Error>, stack: seq<Frame>, result: Option<Value>) {
    if r.Ok? then r.value.stack == stack && r.value.result == result
    else r.error.IsLimit() || Denote(c.rules, n, map[]) == Err(r.error)
  }

  lemma Begins(c: Config, step: Stepper)
    requires Steps(c, step)
    ensures var r := Run(step, START, BEFORE);
      if r.Ok? then r.value.stack == [KeyFrame([], None)] && r.value.anchors == map[] && r.value.result == None
      else r.error.IsLimit()
  {
    var one, two := [StreamStart], [StreamStart, DocumentStart];
    assert Front(one) == [] && Front(two) == one && Front(BEFORE) == two;
    assert step(START, StreamStart) == Step(c, START, StreamStart);
    var s1 := Run(step, START, one);
    if s1.Ok? {
      assert step(s1.value, DocumentStart) == Step(c, s1.value, DocumentStart);
      var s2 := Run(step, START, two);
      if s2.Ok? {
        assert step(s2.value, MappingStart(None)) == Step(c, s2.value, MappingStart(None));
      }
    }
  }

  lemma OneMore(
      c: Config, n: Node, step: Stepper, events: seq<Event>, e: Event, stack: seq<Frame>, result: Option<Value>,
      stack1: seq<Frame>, result1: Option<Value>)
    requires Steps(c, step) && Leaves(c, n, Run(step, START, events), stack, result)
    requires forall s: State :: s.stack == stack && s.result == result ==> Leaves(c, n, Step(c, s, e), stack1, result1)
    ensures Leaves(c, n, Run(step, START, events + [e]), stack1, result1)
  {
    assert Front(events + [e]) == events && Last(events + [e]) == e;
    var r := Run(step, START, events);
    if r.Ok? {
      assert step(r.value, e) == Step(c, r.value, e);
    }
  }

  lemma KeyStep(c: Config, n: Node, s: State, e: Event, es: seq<Entry>)
    requires s.stack == [KeyFrame(es, None)] && e.Scalar? && e.style == Quoted
    ensures Leaves(c, n, Step(c, s, e), [ValueFrame(es, e.text, None)], s.result)
  {
  }

  lemma ValueStep(c: Config, n: Node, s: State)
    requires s.stack == [ValueFrame([], "b", None)]
    ensures Leaves(c, n, Step(c, s, C), [KeyFrame([Entry("b", String("c"))], None)], s.result)
  {
    assert IndexOf([], "b") == 0;
    assert Put([], "b", String("c")) == [Entry("b", String("c"))];
  }

  lemma CloseStep(c: Config, n: Node, s: State, es: seq<Entry>, key: string)
    requires s.stack == [ValueFrame(es, key, None)]
    ensures Leaves(c, n, Step(c, s, MappingEnd), [], Some(Mapping(es)))
  {
  }

  lemma EndStep(c: Config, n: Node, s: State)
    ensures Leaves(c, n, Step(c, s, DocumentEnd), s.stack, s.result)
  {
  }

  /**
    * A mapping of two pairs, the first with the collection `n` as its key and `b` as its value,
    * the second `c: d`, loads as the mapping of `b` to `c`: its keys and values have shifted.
    */
  lemma CollectionKeyShifts(c: Config, n: Node)
    requires IsCollection(n)
    ensures var r := Run(StepOf(c), START, Shifted(n));
      if r.Ok? then r.value.result == Some(Mapping([Entry("b", String("c"))]))
      else r.error.IsLimit() || Denote(c.rules, n, map[]) == Err(r.error)
  {
    var step := StepOf(c);
    var es := [Entry("b", String("c"))];
    DropsKey(c, step, n);
    forall s: State | s.stack == [KeyFrame([], None)] && s.result == None
      ensures Leaves(c, n, Step(c, s, B), [ValueFrame([], "b", None)], None)
    {
      KeyStep(c, n, s, B, []);
    }
    OneMore(c, n, step, BEFORE + Spell(n), B, [KeyFrame([], None)], None, [ValueFrame([], "b", None)], None);
    forall s: State | s.stack == [ValueFrame([], "b", None)] && s.result == None
      ensures Leaves(c, n, Step(c, s, C), [KeyFrame(es, None)], None)
    {
      ValueStep(c, n, s);
    }
    OneMore(c, n, step, BEFORE + Spell(n) + [B], C, [ValueFrame([], "b", None)], None, [KeyFrame(es, None)], None);
    Ends(c, n, step, BEFORE + Spell(n) + [B] + [C], es);
  }

  lemma DropsKey(c: Config, step: Stepper, n: Node)
    requires Steps(c, step) && IsCollection(n)
    ensures Leaves(c, n, Run(step, START, BEFORE + Spell(n)), [KeyFrame([], None)], None)
  {
    Begins(c, step);
    RunAppend(step, START, BEFORE, Spell(n));
    var before := Run(step, START, BEFORE);
    if before.Ok? {
      CollectionKeyIsDropped(c, step, before.value, n);
      assert Values(CtxOf(before.value)) == map[];
    }
  }

  lemma Ends(c: Config, n: Node, step: Stepper, events: seq<Event>, es: seq<Entry>)
    requires Steps(c, step) && Leaves(c, n, Run(step, START, events), [KeyFrame(es, None)], None)
    ensures Leaves(c, n, Run(step, START, events + [D] + [MappingEnd] + [DocumentEnd]), [], Some(Mapping(es)))
  {
    forall s: State | s.stack == [KeyFrame(es, None)] && s.result == None
      ensures Leaves(c, n, Step(c, s, D), [ValueFrame(es, "d", None)], None)
    {
      KeyStep(c, n, s, D, es);
    }
    OneMore(c, n, step, events, D, [KeyFrame(es, None)], None, [ValueFrame(es, "d", None)], None);
    forall s: State | s.stack == [ValueFrame(es, "d", None)] && s.result == None
      ensures Leaves(c, n, Step(c, s, MappingEnd), [], Some(Mapping(es)))
    {
      CloseStep(c, n, s, es, "d");
    }
    OneMore(c, n, step, events + [D], MappingEnd, [ValueFrame(es, "d", None)], None, [], Some(Mapping(es)));
    forall s: State | s.stack == [] && s.result == Some(Mapping(es))
      ensures Leaves(c, n, Step(c, s, DocumentEnd), [], Some(Mapping(es)))
    {
      EndStep(c, n, s);
    }
    OneMore(c, n, step, events + [D] + [MappingEnd], DocumentEnd, [], Some(Mapping(es)), [], Some(Mapping(es)));
  }
}
