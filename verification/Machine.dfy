/** The event-to-tree builder as a transition function on its fields. */
module Machine {
  import opened Common
  import opened Errors
  import opened Events
  import opened Limits
  import opened Metering
  import opened Tree

  datatype Frame =
    | SequenceFrame(items: seq<Value>, name: Option<string>)
    | KeyFrame(entries: seq<Entry>, name: Option<string>)
    | ValueFrame(entries: seq<Entry>, key: string, name: Option<string>)

  /** An anchored value with the measured cost of expanding it. */
  datatype Anchored = Anchored(value: Value, cost: AliasCost)

  datatype State = State(
    stack: seq<Frame>,
    result: Option<Value>,
    depth: nat,
    anchors: map<string, Anchored>,
    meter: Meter
  )

  const START := State([], None, 0, map[], FRESH)

  const MERGE_KEY := "<<"

  predicate AtKey(s: State) { s.stack != [] && Last(s.stack).KeyFrame? }

  function Replace(stack: seq<Frame>, top: Frame): seq<Frame>
    requires stack != []
  {
    Front(stack) + [top]
  }

  /** `!!str`, in any of its spellings. */
  predicate IsCoreStringTag(tag: Option<Tag>) {
    tag.Some? && tag.value.1 == "str" && tag.value.0 in ["!!", "tag:yaml.org,2002:", "!"]
  }

  function ResolveScalar(rules: Rules, text: string, style: Style, tag: Option<Tag>): (v: Value)
    ensures v.IsScalar()
  {
    if IsCoreStringTag(tag) || style != Plain then String(text)
    else
      match rules.resolvePlain(text)
      case PlainNull => Null
      case PlainBool(b) => Bool(b)
      case PlainNumber(n) => Number(n)
      case PlainStr => String(text)
  }

  /** The key an alias stands for in a key position: a scalar as its text. */
  function AliasKey(rules: Rules, referent: Value): Result<string, Error> {
    match referent
    case String(s) => Ok(s)
    case Bool(b) => Ok(if b then "true" else "false")
    case Number(n) => Ok(rules.renderNumber(n))
    case Null => Ok("null")
    case _ => Err(NonScalarAliasKey)
  }

  function InsertEntry(c: Config, entries: seq<Entry>, key: string, value: Value): Result<seq<Entry>, Error> {
    if |entries| >= c.maxMappingKeys then Err(Budget(MaxMappingKeys(c.maxMappingKeys, |entries| + 1)))
    else PlaceEntry(c.rules, entries, key, value)
  }

  function PlaceEntry(rules: Rules, entries: seq<Entry>, key: string, value: Value): Result<seq<Entry>, Error> {
    if rules.duplicateKeys == First && HasKey(entries, key) then Ok(entries)
    else if rules.duplicateKeys == Refuse && HasKey(entries, key) then Err(DuplicateKey(key))
    else Ok(Put(entries, key, value))
  }

  function PushItem(c: Config, items: seq<Value>, value: Value): Result<seq<Value>, Error> {
    if |items| >= c.maxSequenceLength then Err(Budget(MaxSequenceLength(c.maxSequenceLength, |items| + 1)))
    else Ok(items + [value])
  }

  function PushValue(c: Config, s: State, value: Value): Result<State, Error> {
    if s.stack == [] then Ok(s.(result := Some(value)))
    else
      match Last(s.stack)
      case SequenceFrame(items, name) =>
        var grown :- PushItem(c, items, value);
        Ok(s.(stack := Replace(s.stack, SequenceFrame(grown, name))))
      case ValueFrame(entries, key, name) =>
        var grown :- InsertEntry(c, entries, key, value);
        Ok(s.(stack := Replace(s.stack, KeyFrame(grown, name))))
      case KeyFrame(_, _) => Ok(s)
  }

  /** Turn the open mapping's key state into its value state; any other top frame is lost. */
  function SetKey(s: State, key: string): State {
    if s.stack == [] then s
    else
      match Last(s.stack)
      case KeyFrame(entries, name) => s.(stack := Replace(s.stack, ValueFrame(entries, key, name)))
      case _ => s.(stack := Front(s.stack))
  }

  function Record(anchors: map<string, Anchored>, name: Option<string>, value: Value): map<string, Anchored> {
    if name.None? then anchors else anchors[name.value := Anchored(value, Measure(value))]
  }

  function ChargeMergePolicy(c: Config, m: Meter): Result<Meter, Error> {
    match c.rules.mergeKeys
    case AsOrdinary => Ok(m)
    case RefuseMerge => Err(MergeKeyRejected)
    case Auto => ChargeMergeKey(c, m)
  }

  function OnScalar(
      c: Config, s: State, text: string, style: Style, name: Option<string>, tag: Option<Tag>): Result<State, Error>
  {
    if AtKey(s) then
      if style == Plain && text == MERGE_KEY then
        var m :- ChargeMergePolicy(c, s.meter);
        Ok(SetKey(s.(meter := m), text))
      else Ok(SetKey(s, text))
    else
      var v := ResolveScalar(c.rules, text, style, tag);
      PushValue(c, s.(anchors := Record(s.anchors, name, v)), v)
  }

  function OpenCollection(c: Config, s: State): Result<State, Error> {
    if DepthExceeded(s.depth + 1, c.maxDepth) then Err(RecursionLimitExceeded(s.depth + 1))
    else Ok(s.(depth := s.depth + 1))
  }

  /** The value a frame closes to. */
  function Closed(f: Frame): Value {
    match f
    case SequenceFrame(items, _) => Sequence(items)
    case KeyFrame(entries, _) => Mapping(entries)
    case ValueFrame(entries, _, _) => Mapping(entries)
  }

  function CloseCollection(c: Config, s: State): Result<State, Error> {
    if s.stack == [] then Err(UnexpectedCollectionEnd)
    else
      var v := Closed(Last(s.stack));
      PushValue(c, s.(
        depth := SatSub(s.depth, 1),
        stack := Front(s.stack),
        anchors := Record(s.anchors, Last(s.stack).name, v)), v)
  }

  function OnAlias(c: Config, s: State, name: string): Result<State, Error> {
    var m1 :- ChargeAlias(c, s.meter);
    if name !in s.anchors then Err(UnknownAnchor(name))
    else
      var m2 :- ChargeExpansion(c, m1, s.anchors[name].cost, s.depth);
      var s2 := s.(meter := m2);
      var referent := s.anchors[name].value;
      if AtKey(s2) then
        var key :- AliasKey(c.rules, referent);
        Ok(SetKey(s2, key))
      else PushValue(c, s2, referent)
  }

  /** `process`: one event. */
  function Step(c: Config, s0: State, e: Event): Result<State, Error> {
    var m :- ChargeEvent(c, s0.meter, e);
    var s := s0.(meter := m);
    match e
    case DocumentEnd => Ok(s.(anchors := map[]))
    case Scalar(text, style, name, tag) => OnScalar(c, s, text, style, name, tag)
    case SequenceStart(name) =>
      var s1 :- OpenCollection(c, s);
      Ok(s1.(stack := s1.stack + [SequenceFrame([], name)]))
    case MappingStart(name) =>
      var s1 :- OpenCollection(c, s);
      Ok(s1.(stack := s1.stack + [KeyFrame([], name)]))
    case SequenceEnd => CloseCollection(c, s)
    case MappingEnd => CloseCollection(c, s)
    case Alias(name) => OnAlias(c, s, name)
    case _ => Ok(s)
  }

  type Stepper = (State, Event) -> Result<State, Error>

  /** The transition function of one configuration, as a value. */
  function StepOf(c: Config): Stepper {
    (s: State, e: Event) => Step(c, s, e)
  }

  /**
    * `step` is the transition function of `c`. Proofs about runs carry it as a variable, so
    * that they unfold only the transitions they name.
    */
  ghost predicate Steps(c: Config, step: Stepper) {
    forall s, e {:trigger Step(c, s, e)} :: step(s, e) == Step(c, s, e)
  }

  /** A whole run: the first refusal ends it. */
  function Run(step: Stepper, s: State, events: seq<Event>): Result<State, Error>
    decreases |events|
  {
    if events == [] then Ok(s)
    else
      var s1 :- Run(step, s, Front(events));
      step(s1, Last(events))
  }

  function RunOn(step: Stepper, r: Result<State, Error>, events: seq<Event>): Result<State, Error> {
    if r.Err? then r else Run(step, r.value, events)
  }

  lemma {:induction false} RunAppend(step: Stepper, s: State, a: seq<Event>, b: seq<Event>)
    ensures Run(step, s, a + b) == RunOn(step, Run(step, s, a), b)
    decreases |b|
  {
    if b == [] {
      assert a + b == a;
    } else {
      RunAppend(step, s, a, Front(b));
      assert Front(a + b) == a + Front(b);
    }
  }
}
