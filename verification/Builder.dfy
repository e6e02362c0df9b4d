/** The builder as the source has it: an object whose methods update its fields. */
module Builder {
  import opened Common
  import opened Errors
  import opened Events
  import opened Limits
  import opened Metering
  import opened Tree
  import opened Machine
  import CostWalk

  class BorrowedBuilder {
    var stack: seq<Frame>
    var result: Option<Value>
    var depth: nat
    var anchors: map<string, Anchored>
    var meter: Meter
    const config: Config

    ghost function Abs(): State
      reads this
    {
      State(stack, result, depth, anchors, meter)
    }

    constructor (c: Config)
      ensures Abs() == START && config == c
    {
      config := c;
      stack, result, depth, anchors, meter := [], None, 0, map[], FRESH;
    }

    /** What every transition promises: the state the machine gives, or its refusal. */
    ghost predicate Follows(spec: Result<State, Error>, r: Result<(), Error>)
      reads this
    {
      match spec
      case Ok(s) => r.Ok? && Abs() == s
      case Err(e) => r == Err(e)
    }

    method PushValue(value: Value) returns (r: Result<(), Error>)
      modifies this`stack, this`result
      ensures Follows(Machine.PushValue(config, old(Abs()), value), r)
    {
      if stack == [] {
        result := Some(value);
        return Ok(());
      }
      var top := Last(stack);
      stack := Front(stack);
      match top
      case SequenceFrame(items, name) =>
        if |items| >= config.maxSequenceLength {
          return Err(Budget(MaxSequenceLength(config.maxSequenceLength, |items| + 1)));
        }
        stack := stack + [SequenceFrame(items + [value], name)];
        return Ok(());
      case ValueFrame(entries, key, name) =>
        var grown :- InsertEntry(config, entries, key, value);
        stack := stack + [KeyFrame(grown, name)];
        return Ok(());
      case KeyFrame(_, _) =>
        stack := stack + [top];
        return Ok(());
    }

    method SetKey(key: string)
      modifies this`stack
      ensures Abs() == Machine.SetKey(old(Abs()), key)
    {
      if stack != [] {
        var top := Last(stack);
        stack := Front(stack);
        if top.KeyFrame? {
          stack := stack + [ValueFrame(top.entries, key, top.name)];
        }
      }
    }

    method RecordAnchor(name: Option<string>, value: Value)
      modifies this`anchors
      ensures anchors == Machine.Record(old(anchors), name, value)
    {
      if name.Some? {
        var cost := CostWalk.BorrowedCost(value);
        anchors := anchors[name.value := Anchored(value, cost)];
      }
    }

    method ChargeMergeKey() returns (r: Result<(), Error>)
      modifies this`meter
      ensures match ChargeMergePolicy(config, old(meter))
              case Ok(m) => r.Ok? && meter == m
              case Err(e) => r == Err(e)
    {
      match config.rules.mergeKeys
      case AsOrdinary => return Ok(());
      case RefuseMerge => return Err(MergeKeyRejected);
      case Auto =>
        meter :- Metering.ChargeMergeKey(config, meter);
        return Ok(());
    }

    method OnScalar(text: string, style: Style, name: Option<string>, tag: Option<Tag>) returns (r: Result<(), Error>)
      modifies this
      ensures Follows(Machine.OnScalar(config, old(Abs()), text, style, name, tag), r)
    {
      if stack != [] && Last(stack).KeyFrame? {
        if style == Plain && text == MERGE_KEY {
          var _ :- ChargeMergeKey();
        }
        SetKey(text);
        return Ok(());
      }
      var resolved := ResolveScalar(config.rules, text, style, tag);
      RecordAnchor(name, resolved);
      r := PushValue(resolved);
    }

    method OpenCollection() returns (r: Result<(), Error>)
      modifies this`depth
      ensures Follows(Machine.OpenCollection(config, old(Abs())), r)
    {
      depth := depth + 1;
      if DepthExceeded(depth, config.maxDepth) {
        return Err(RecursionLimitExceeded(depth));
      }
      return Ok(());
    }

    method CloseCollection() returns (r: Result<(), Error>)
      modifies this
      ensures Follows(Machine.CloseCollection(config, old(Abs())), r)
    {
      depth := SatSub(depth, 1);
      if stack == [] {
        return Err(UnexpectedCollectionEnd);
      }
      var top := Last(stack);
      stack := Front(stack);
      var value := match top
        case SequenceFrame(items, _) => Sequence(items)
        case KeyFrame(entries, _) => Mapping(entries)
        case ValueFrame(entries, _, _) => Mapping(entries);
      RecordAnchor(top.name, value);
      r := PushValue(value);
    }

    method OnAlias(name: string) returns (r: Result<(), Error>)
      modifies this
      ensures Follows(Machine.OnAlias(config, old(Abs()), name), r)
    {
      meter :- ChargeAlias(config, meter);
      if name !in anchors {
        return Err(UnknownAnchor(name));
      }
      var referent := anchors[name];
      meter :- ChargeExpansion(config, meter, referent.cost, depth);
      if stack != [] && Last(stack).KeyFrame? {
        var key :- AliasKey(config.rules, referent.value);
        SetKey(key);
        return Ok(());
      }
      r := PushValue(referent.value);
    }

    method Process(event: Event) returns (r: Result<(), Error>)
      modifies this
      ensures Follows(Step(config, old(Abs()), event), r)
    {
      meter :- ChargeEvent(config, meter, event);
      match event
      case DocumentEnd =>
        anchors := map[];
        r := Ok(());
      case Scalar(text, style, name, tag) => r := OnScalar(text, style, name, tag);
      case SequenceStart(name) =>
        var _ :- OpenCollection();
        stack := stack + [SequenceFrame([], name)];
        r := Ok(());
      case MappingStart(name) =>
        var _ :- OpenCollection();
        stack := stack + [KeyFrame([], name)];
        r := Ok(());
      case SequenceEnd => r := CloseCollection();
      case MappingEnd => r := CloseCollection();
      case Alias(name) => r := OnAlias(name);
      case StreamStart => r := Ok(());
      case StreamEnd => r := Ok(());
      case DocumentStart => r := Ok(());
    }
  }

  /** The events a load processes: those before the stream end. */
  function BeforeEnd(events: seq<Event>): seq<Event> {
    if events == [] || events[0] == StreamEnd then [] else [events[0]] + BeforeEnd(events[1..])
  }

  lemma {:induction false} BeforeEndFrom(events: seq<Event>, i: nat)
    requires i <= |events| && StreamEnd !in events[..i]
    ensures BeforeEnd(events) == events[..i] + BeforeEnd(events[i..])
  {
    if i > 0 {
      assert events[0] == events[..i][0] && events[1..][..i - 1] == events[..i][1..];
      assert events[1..][i - 1..] == events[i..];
      BeforeEndFrom(events[1..], i - 1);
    } else {
      assert events[0..] == events;
    }
  }

  /** The value of a whole load; an empty stream reads as null. */
  function Loaded(c: Config, events: seq<Event>): Result<Value, Error> {
    var s :- Run(StepOf(c), START, events);
    Ok(if s.result.Some? then s.result.value else Null)
  }

  /** A refusal inside the processed events is the refusal of the load. */
  lemma StoppedAt(c: Config, events: seq<Event>, i: nat)
    requires i <= |events| && StreamEnd !in events[..i]
    requires Run(StepOf(c), START, events[..i]).Err?
    ensures Loaded(c, BeforeEnd(events)) == Err(Run(StepOf(c), START, events[..i]).error)
  {
    BeforeEndFrom(events, i);
    RunAppend(StepOf(c), START, events[..i], BeforeEnd(events[i..]));
  }

  /** `from_str_borrowed`'s loop, over the events the parser hands it. */
  method Load(c: Config, events: seq<Event>) returns (r: Result<Value, Error>)
    ensures r == Loaded(c, BeforeEnd(events))
  {
    var builder := new BorrowedBuilder(c);
    var i := 0;
    while i < |events| && events[i] != StreamEnd
      invariant 0 <= i <= |events| && StreamEnd !in events[..i]
      invariant builder.config == c
      invariant Run(StepOf(c), START, events[..i]) == Ok(builder.Abs())
    {
      ghost var done := events[..i + 1];
      assert Front(done) == events[..i] && Last(done) == events[i];
      var step := builder.Process(events[i]);
      if step.Err? {
        StoppedAt(c, events, i + 1);
        return Err(step.error);
      }
      i := i + 1;
    }
    BeforeEndFrom(events, i);
    assert BeforeEnd(events) == events[..i];
    return Ok(if builder.result.Some? then builder.result.value else Null);
  }
}
