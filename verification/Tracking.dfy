/** Shared pointers, and the state that decides between an anchor and an alias. */
module Tracking {
  import opened Common
  import opened Errors
  import opened Events
  import opened Syntax
  import opened AnchorNames

  /** Serializable data with reference-counted pointers; `ptr` is the address of the pointee. */
  datatype Data =
    | Leaf(text: string, style: Style, tag: Option<Tag>)
    | List(items: seq<Data>)
    | Record(fields: seq<Field>)
    | Strong(ptr: nat, pointee: Data)
    | Weak(ptr: nat, pointee: Data)
    | Dangling

  datatype Field = Field(key: string, style: Style, value: Data)

  datatype Tracker = Tracker(seen: map<nat, u32>, nextId: u32)

  const NONE_SEEN := Tracker(map[], 1)

  datatype TrackOutcome = NotActive | New(id: u32) | Existing(id: u32)

  type Tracked = Option<Tracker>

  function Track(state: Tracked, ptr: nat): (TrackOutcome, Tracked) {
    if state.None? then (NotActive, state)
    else
      var t := state.value;
      if ptr in t.seen then (Existing(t.seen[ptr]), state)
      else (New(t.nextId), Some(Tracker(t.seen[ptr := t.nextId], Min(t.nextId + 1, U32_MAX))))
  }

  function Peek(state: Tracked, ptr: nat): Option<u32> {
    if state.Some? && ptr in state.value.seen then Some(state.value.seen[ptr]) else None
  }

  /** What the serializer writes: a definition stands before whatever the pointee is written as. */
  datatype Written =
    | ScalarText(text: string, style: Style, tag: Option<Tag>)
    | AliasText(target: string)
    | SequenceText(items: seq<Written>)
    | MappingText(fields: seq<WrittenField>)
    | Definition(name: string, inner: Written)

  datatype WrittenField = WrittenField(key: string, style: Style, value: Written)

  /** What serializing `d` writes and the state it leaves. */
  function Emit(d: Data, state: Tracked): (r: (Written, Tracked))
    ensures r.1.None? <==> state.None?
    decreases d
  {
    match d
    case Leaf(text, style, tag) => (ScalarText(text, style, tag), state)
    case List(items) => var (ws, s) := EmitAll(items, state); (SequenceText(ws), s)
    case Record(fields) => var (fs, s) := EmitFields(fields, state); (MappingText(fs), s)
    case Strong(ptr, pointee) =>
      var (outcome, s) := Track(state, ptr);
      (match outcome
       case NotActive => Emit(pointee, s)
       case New(id) => var (w, s1) := Emit(pointee, s); (Definition(FormatId(id), w), s1)
       case Existing(id) => (AliasText(FormatId(id)), s))
    case Weak(ptr, pointee) =>
      var id := Peek(state, ptr);
      if id.Some? then (AliasText(FormatId(id.value)), state) else Emit(pointee, state)
    case Dangling => (ScalarText("null", Plain, None), state)
  }

  function EmitAll(items: seq<Data>, state: Tracked): (r: (seq<Written>, Tracked))
    ensures r.1.None? <==> state.None?
    decreases items
  {
    if items == [] then ([], state)
    else
      var (ws, s) := EmitAll(Front(items), state);
      var (w, s1) := Emit(Last(items), s);
      (ws + [w], s1)
  }

  function EmitFields(fields: seq<Field>, state: Tracked): (r: (seq<WrittenField>, Tracked))
    ensures r.1.None? <==> state.None?
    decreases fields
  {
    if fields == [] then ([], state)
    else
      var (fs, s) := EmitFields(Front(fields), state);
      var (f, s1) := EmitField(Last(fields), s);
      (fs + [f], s1)
  }

  function EmitField(f: Field, state: Tracked): (r: (WrittenField, Tracked))
    ensures r.1.None? <==> state.None?
    decreases f
  {
    var (w, s) := Emit(f.value, state);
    (WrittenField(f.key, f.style, w), s)
  }

  // ----- what the parser makes of it -----

  /** The node with its one anchor put on it; an alias has no place for one. */
  function Anchor(name: string, n: Node): Node {
    match n
    case AliasNode(_) => n
    case ScalarNode(text, style, _, tag) => ScalarNode(text, style, Some(name), tag)
    case SequenceNode(_, items) => SequenceNode(Some(name), items)
    case MappingNode(_, pairs) => MappingNode(Some(name), pairs)
  }

  /**
    * The node that is read back. A node takes one anchor: a second one leaves the first on an
    * empty scalar and is itself stray; and nothing may decorate an alias.
    */
  function Parsed(w: Written): Result<Node, Error>
    decreases w
  {
    match w
    case ScalarText(text, style, tag) => Ok(ScalarNode(text, style, None, tag))
    case AliasText(target) => Ok(AliasNode(target))
    case SequenceText(items) =>
      var ns :- ParsedAll(items);
      Ok(SequenceNode(None, ns))
    case MappingText(fields) =>
      var ps :- ParsedFields(fields);
      Ok(MappingNode(None, ps))
    case Definition(name, inner) =>
      if inner.Definition? then Err(SecondAnchor)
      else if inner.AliasText? then Err(DecoratedAlias)
      else
        var n :- Parsed(inner);
        Ok(Anchor(name, n))
  }

  function ParsedAll(items: seq<Written>): Result<seq<Node>, Error>
    decreases items
  {
    if items == [] then Ok([])
    else
      var ns :- ParsedAll(Front(items));
      var n :- Parsed(Last(items));
      Ok(ns + [n])
  }

  function ParsedFields(fields: seq<WrittenField>): Result<seq<Pair>, Error>
    decreases fields
  {
    if fields == [] then Ok([])
    else
      var ps :- ParsedFields(Front(fields));
      var p :- ParsedField(Last(fields));
      Ok(ps + [p])
  }

  function ParsedField(f: WrittenField): Result<Pair, Error>
    decreases f
  {
    var n :- Parsed(f.value);
    Ok(Pair(ScalarKey(f.key, f.style, None, None), n))
  }

  // ----- ids are distinct exactly as long as the counter has not stuck at its top -----

  ghost predicate Distinct(t: Tracker) {
    forall p, q :: p in t.seen && q in t.seen && p != q ==> t.seen[p] != t.seen[q]
  }

  /** What every tracker reached from an empty one satisfies. */
  ghost predicate Numbered(t: Tracker) {
    && t.nextId == Min(|t.seen| + 1, U32_MAX)
    && (forall p :: p in t.seen ==> 1 <= t.seen[p] <= Min(|t.seen|, U32_MAX))
    && (|t.seen| <= U32_MAX ==> Distinct(t))
    && (|t.seen| >= U32_MAX ==> exists p :: p in t.seen && t.seen[p] == U32_MAX)
    && (|t.seen| > U32_MAX ==> !Distinct(t))
  }

  lemma TrackKeepsNumbered(t: Tracker, ptr: nat)
    requires Numbered(t)
    ensures Numbered(Track(Some(t), ptr).1.value)
  {
    var t1 := Track(Some(t), ptr).1.value;
    if ptr !in t.seen {
      assert t1.seen.Keys == t.seen.Keys + {ptr};
      assert |t1.seen| == |t.seen| + 1;
      assert t1.seen[ptr] == t.nextId;
      if |t.seen| >= U32_MAX {
        var p :| p in t.seen && t.seen[p] == U32_MAX;
        assert t1.seen[p] == t1.seen[ptr] && p != ptr;
      }
    }
  }

  function TrackAll(ptrs: seq<nat>): Tracker {
    if ptrs == [] then NONE_SEEN else Track(Some(TrackAll(Front(ptrs))), Last(ptrs)).1.value
  }

  /** Two pointers share a name exactly when more than 2^32 - 1 of them have been tracked. */
  lemma {:induction false} NamesDistinctUpToTheTop(ptrs: seq<nat>)
    ensures Numbered(TrackAll(ptrs))
    ensures Distinct(TrackAll(ptrs)) <==> |TrackAll(ptrs).seen| <= 0xFFFF_FFFF
  {
    if ptrs != [] {
      NamesDistinctUpToTheTop(Front(ptrs));
      TrackKeepsNumbered(TrackAll(Front(ptrs)), Last(ptrs));
    }
  }
}
