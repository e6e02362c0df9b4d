/** Emitting shared data under tracking and loading it again is as good as emitting it inline. */
module RoundTrip {
  import opened Common
  import opened Errors
  import opened Events
  import opened Metering
  import opened Tree
  import opened Machine
  import opened Syntax
  import opened AnchorNames
  import opened Tracking
  import opened Evaluation
  import opened Meaning

  /** The pointers that occur in `d`, at any depth. */
  ghost function Pointers(d: Data): set<nat>
    decreases d
  {
    match d
    case List(items) => PointersOf(items)
    case Record(fields) => PointersOfFields(fields)
    case Strong(ptr, pointee) => {ptr} + Pointers(pointee)
    case Weak(ptr, pointee) => {ptr} + Pointers(pointee)
    case _ => {}
  }

  ghost function PointersOf(items: seq<Data>): set<nat>
    decreases items
  {
    if items == [] then {} else PointersOf(Front(items)) + Pointers(Last(items))
  }

  ghost function PointersOfFields(fields: seq<Field>): set<nat>
    decreases fields
  {
    if fields == [] then {} else PointersOfFields(Front(fields)) + PointersOfField(Last(fields))
  }

  ghost function PointersOfField(f: Field): set<nat>
    decreases f
  {
    Pointers(f.value)
  }

  ghost function Size(d: Data): nat
    decreases d
  {
    match d
    case List(items) => 1 + SizeOf(items)
    case Record(fields) => 1 + SizeOfFields(fields)
    case Strong(_, pointee) => 1 + Size(pointee)
    case Weak(_, pointee) => 1 + Size(pointee)
    case _ => 1
  }

  ghost function SizeOf(items: seq<Data>): nat
    decreases items
  {
    if items == [] then 0 else SizeOf(Front(items)) + Size(Last(items))
  }

  ghost function SizeOfFields(fields: seq<Field>): nat
    decreases fields
  {
    if fields == [] then 0 else SizeOfFields(Front(fields)) + SizeOfField(Last(fields))
  }

  ghost function SizeOfField(f: Field): nat
    decreases f
  {
    Size(f.value)
  }

  type Heap = map<nat, Data>

  /** `d` is a view of one heap: every pointer to an address shows what is there. */
  ghost predicate InHeap(heap: Heap, d: Data)
    decreases d
  {
    match d
    case List(items) => AllInHeap(heap, items)
    case Record(fields) => FieldsInHeap(heap, fields)
    case Strong(ptr, pointee) => PointsTo(heap, ptr, pointee) && InHeap(heap, pointee)
    case Weak(ptr, pointee) => PointsTo(heap, ptr, pointee) && InHeap(heap, pointee)
    case _ => true
  }

  ghost predicate PointsTo(heap: Heap, ptr: nat, pointee: Data) {
    ptr in heap && heap[ptr] == pointee
  }

  ghost predicate AllInHeap(heap: Heap, items: seq<Data>)
    decreases items
  {
    items != [] ==> AllInHeap(heap, Front(items)) && InHeap(heap, Last(items))
  }

  ghost predicate FieldsInHeap(heap: Heap, fields: seq<Field>)
    decreases fields
  {
    fields != [] ==> FieldsInHeap(heap, Front(fields)) && FieldInHeap(heap, Last(fields))
  }

  ghost predicate FieldInHeap(heap: Heap, f: Field)
    decreases f
  {
    InHeap(heap, f.value)
  }

  // ----- a pointee never points back to itself -----

  lemma {:induction false} PointeesAreSmaller(heap: Heap, d: Data, ptr: nat)
    requires InHeap(heap, d) && ptr in Pointers(d)
    ensures ptr in heap && Size(heap[ptr]) < Size(d)
    decreases d
  {
    match d
    case List(items) => PointeesOfItems(heap, items, ptr);
    case Record(fields) => PointeesOfFields(heap, fields, ptr);
    case Strong(p, pointee) =>
      if ptr != p {
        PointeesAreSmaller(heap, pointee, ptr);
      }
    case Weak(p, pointee) =>
      if ptr != p {
        PointeesAreSmaller(heap, pointee, ptr);
      }
    case _ => assert false;
  }

  lemma {:induction false} PointeesOfItems(heap: Heap, items: seq<Data>, ptr: nat)
    requires AllInHeap(heap, items) && ptr in PointersOf(items)
    ensures ptr in heap && Size(heap[ptr]) < 1 + SizeOf(items)
    decreases items
  {
    if ptr in PointersOf(Front(items)) {
      PointeesOfItems(heap, Front(items), ptr);
    } else {
      PointeesAreSmaller(heap, Last(items), ptr);
    }
  }

  lemma {:induction false} PointeesOfFields(heap: Heap, fields: seq<Field>, ptr: nat)
    requires FieldsInHeap(heap, fields) && ptr in PointersOfFields(fields)
    ensures ptr in heap && Size(heap[ptr]) < 1 + SizeOfFields(fields)
    decreases fields
  {
    if ptr in PointersOfFields(Front(fields)) {
      PointeesOfFields(heap, Front(fields), ptr);
    } else {
      PointeesOfField(heap, Last(fields), ptr);
    }
  }

  lemma {:induction false} PointeesOfField(heap: Heap, f: Field, ptr: nat)
    requires FieldInHeap(heap, f) && ptr in PointersOfField(f)
    ensures ptr in heap && Size(heap[ptr]) < 1 + SizeOfField(f)
    decreases f
  {
    PointeesAreSmaller(heap, f.value, ptr);
  }

  // ----- what can be read back at all -----

  /** Under `t` the data is written with neither an anchor nor an alias in front. */
  predicate Undecorated(d: Data, t: Tracker)
    decreases d
  {
    match d
    case Strong(_, _) => false
    case Weak(ptr, pointee) => ptr !in t.seen && Undecorated(pointee, t)
    case _ => true
  }

  /**
    * No pointer that is seen for the first time has a pointee written with an anchor or an alias
    * in front; untracked, nothing has.
    */
  predicate Clean(d: Data, state: Tracked): (clean: bool)
    ensures state.None? ==> clean
    decreases d
  {
    match d
    case List(items) => CleanAll(items, state)
    case Record(fields) => CleanFields(fields, state)
    case Strong(ptr, pointee) =>
      var (outcome, s) := Track(state, ptr);
      (match outcome
       case NotActive => Clean(pointee, s)
       case New(_) => s.Some? && Undecorated(pointee, s.value) && Clean(pointee, s)
       case Existing(_) => true)
    case Weak(ptr, pointee) => Peek(state, ptr).Some? || Clean(pointee, state)
    case _ => true
  }

  predicate CleanAll(items: seq<Data>, state: Tracked)
    decreases items
  {
    items != [] && state.Some? ==> CleanAll(Front(items), state) && Clean(Last(items), EmitAll(Front(items), state).1)
  }

  predicate CleanFields(fields: seq<Field>, state: Tracked)
    decreases fields
  {
    fields != [] && state.Some? ==>
      CleanFields(Front(fields), state) && CleanField(Last(fields), EmitFields(Front(fields), state).1)
  }

  predicate CleanField(f: Field, state: Tracked)
    decreases f
  {
    state.Some? ==> Clean(f.value, state)
  }

  lemma {:induction false} UndecoratedIsBare(d: Data, t: Tracker)
    ensures var w := Emit(d, Some(t)).0; Undecorated(d, t) <==> !w.Definition? && !w.AliasText?
    decreases d
  {
    match d
    case Weak(ptr, pointee) => UndecoratedIsBare(pointee, t);
    case _ =>
  }

  /** The condition is exact: what is written is a document's node if and only if the data is clean. */
  lemma {:induction false} CleanIsReadable(d: Data, state: Tracked)
    ensures Parsed(Emit(d, state).0).Ok? <==> Clean(d, state)
    ensures Parsed(Emit(d, state).0).Err? ==> IsDecoration(Parsed(Emit(d, state).0).error)
    decreases d
  {
    match d
    case List(items) => CleanItems(items, state);
    case Record(fields) => CleanRecord(fields, state);
    case Strong(ptr, pointee) =>
      var (outcome, s) := Track(state, ptr);
      if !outcome.Existing? {
        CleanIsReadable(pointee, s);
        if outcome.New? {
          UndecoratedIsBare(pointee, s.value);
        }
      }
    case Weak(ptr, pointee) => CleanIsReadable(pointee, state);
    case _ =>
  }

  ghost predicate IsDecoration(e: Error) { e.SecondAnchor? || e.DecoratedAlias? }

  lemma {:induction false} CleanItems(items: seq<Data>, state: Tracked)
    ensures ParsedAll(EmitAll(items, state).0).Ok? <==> CleanAll(items, state)
    ensures ParsedAll(EmitAll(items, state).0).Err? ==> IsDecoration(ParsedAll(EmitAll(items, state).0).error)
    decreases items
  {
    if items != [] {
      CleanItems(Front(items), state);
      var (ws, s) := EmitAll(Front(items), state);
      CleanIsReadable(Last(items), s);
      assert Front(ws + [Emit(Last(items), s).0]) == ws;
    }
  }

  lemma {:induction false} CleanRecord(fields: seq<Field>, state: Tracked)
    ensures ParsedFields(EmitFields(fields, state).0).Ok? <==> CleanFields(fields, state)
    ensures ParsedFields(EmitFields(fields, state).0).Err? ==>
      IsDecoration(ParsedFields(EmitFields(fields, state).0).error)
    decreases fields
  {
    if fields != [] {
      CleanRecord(Front(fields), state);
      var (fs, s) := EmitFields(Front(fields), state);
      CleanEntry(Last(fields), s);
      assert Front(fs + [EmitField(Last(fields), s).0]) == fs;
    }
  }

  lemma {:induction false} CleanEntry(f: Field, state: Tracked)
    ensures ParsedField(EmitField(f, state).0).Ok? <==> CleanField(f, state)
    ensures ParsedField(EmitField(f, state).0).Err? ==> IsDecoration(ParsedField(EmitField(f, state).0).error)
    decreases f
  {
    CleanIsReadable(f.value, state);
  }

  // ----- the value of data written inline -----

  function Inline(d: Data): Written { Emit(d, None).0 }

  /** What is written, read back in an environment. */
  function Read(rules: Rules, w: Written, env: Env): Result<(Value, Env), Error> {
    var n :- Parsed(w);
    Denote(rules, n, env)
  }

  function ReadAll(rules: Rules, ws: seq<Written>, env: Env): Result<(seq<Value>, Env), Error> {
    var ns :- ParsedAll(ws);
    DenoteItems(rules, ns, env)
  }

  function ReadFields(rules: Rules, fs: seq<WrittenField>, env: Env): Result<(seq<Entry>, Env), Error> {
    var ps :- ParsedFields(fs);
    DenotePairs(rules, ps, env)
  }

  function ReadField(rules: Rules, f: WrittenField, es: seq<Entry>, env: Env): Result<(seq<Entry>, Env), Error> {
    var p :- ParsedField(f);
    DenotePair(rules, p, es, env)
  }

  lemma InlineIsRead(items: seq<Data>)
    requires items != []
    ensures var (ws, w) := (EmitAll(Front(items), None).0, Inline(Last(items)));
      ParsedAll(ws).Ok? && Parsed(w).Ok? && EmitAll(items, None).0 == ws + [w]
  {
    CleanItems(Front(items), None);
    CleanIsReadable(Last(items), None);
  }

  lemma InlineRecordIsRead(fields: seq<Field>)
    requires fields != []
    ensures var (fs, f) := (EmitFields(Front(fields), None).0, EmitField(Last(fields), None).0);
      ParsedFields(fs).Ok? && ParsedField(f).Ok? && EmitFields(fields, None).0 == fs + [f]
  {
    CleanRecord(Front(fields), None);
    CleanEntry(Last(fields), None);
  }

  lemma ReadSequence(rules: Rules, ws: seq<Written>, env: Env)
    ensures Read(rules, SequenceText(ws), env) == AsSequence(ReadAll(rules, ws, env))
  {
  }

  function AsSequence(r: Result<(seq<Value>, Env), Error>): Result<(Value, Env), Error> {
    var (vs, env) :- r;
    Ok((Sequence(vs), env))
  }

  lemma ReadMapping(rules: Rules, fs: seq<WrittenField>, env: Env)
    ensures Read(rules, MappingText(fs), env) == AsMapping(ReadFields(rules, fs, env))
  {
  }

  function AsMapping(r: Result<(seq<Entry>, Env), Error>): Result<(Value, Env), Error> {
    var (es, env) :- r;
    Ok((Mapping(es), env))
  }

  lemma ReadOneMore(rules: Rules, ws: seq<Written>, w: Written, env: Env)
    requires ParsedAll(ws).Ok? && Parsed(w).Ok?
    ensures ReadAll(rules, ws + [w], env) == OneMoreItem(rules, w, ReadAll(rules, ws, env))
  {
    assert Front(ws + [w]) == ws;
    var ns, n := ParsedAll(ws).value, Parsed(w).value;
    assert Front(ns + [n]) == ns;
  }

  function OneMoreItem(
      rules: Rules, w: Written, r: Result<(seq<Value>, Env), Error>): Result<(seq<Value>, Env), Error>
  {
    var (vs, env) :- r;
    var (v, env1) :- Read(rules, w, env);
    Ok((vs + [v], env1))
  }

  lemma ReadOneMoreField(rules: Rules, fs: seq<WrittenField>, f: WrittenField, env: Env)
    requires ParsedFields(fs).Ok? && ParsedField(f).Ok?
    ensures ReadFields(rules, fs + [f], env) == OneMoreField(rules, f, ReadFields(rules, fs, env))
  {
    assert Front(fs + [f]) == fs;
    var ps, p := ParsedFields(fs).value, ParsedField(f).value;
    assert Front(ps + [p]) == ps;
  }

  function OneMoreField(
      rules: Rules, f: WrittenField, r: Result<(seq<Entry>, Env), Error>): Result<(seq<Entry>, Env), Error>
  {
    var (es, env) :- r;
    ReadField(rules, f, es, env)
  }

  /** The value of `d` with every pointer expanded where it stands. */
  function Plain(rules: Rules, d: Data): (r: Result<Value, Error>)
    ensures r.Err? ==> !IsDecoration(r.error)
    decreases d
  {
    match d
    case Leaf(text, style, tag) => Ok(ResolveScalar(rules, text, style, tag))
    case List(items) =>
      var vs :- PlainAll(rules, items);
      Ok(Sequence(vs))
    case Record(fields) =>
      var es :- PlainFields(rules, fields);
      Ok(Mapping(es))
    case Strong(_, pointee) => Plain(rules, pointee)
    case Weak(_, pointee) => Plain(rules, pointee)
    case Dangling => Ok(ResolveScalar(rules, "null", Style.Plain, None))
  }

  function PlainAll(rules: Rules, items: seq<Data>): (r: Result<seq<Value>, Error>)
    ensures r.Err? ==> !IsDecoration(r.error)
    decreases items
  {
    if items == [] then Ok([])
    else
      var vs :- PlainAll(rules, Front(items));
      var v :- Plain(rules, Last(items));
      Ok(vs + [v])
  }

  function PlainFields(rules: Rules, fields: seq<Field>): (r: Result<seq<Entry>, Error>)
    ensures r.Err? ==> !IsDecoration(r.error)
    decreases fields
  {
    if fields == [] then Ok([])
    else
      var es :- PlainFields(rules, Front(fields));
      PlainField(rules, Last(fields), es)
  }

  function PlainField(rules: Rules, f: Field, es: seq<Entry>): (r: Result<seq<Entry>, Error>)
    ensures r.Err? ==> !IsDecoration(r.error)
    decreases f
  {
    var key :- DenoteKey(rules, ScalarKey(f.key, f.style, None, None), map[]);
    var v :- Plain(rules, f.value);
    PlaceEntry(rules, es, key, v)
  }

  /** `r` is the plain result `p`, with the environment left at `env`. */
  ghost predicate Same<T>(r: Result<(T, Env), Error>, p: Result<T, Error>, env: Env) {
    match p case Ok(t) => r == Ok((t, env)) case Err(e) => r == Err(e)
  }

  /** Without tracking nothing is anchored or aliased, and the value is the plain one. */
  lemma {:induction false} InlineIsPlain(rules: Rules, d: Data, env: Env)
    ensures Same(Read(rules, Inline(d), env), Plain(rules, d), env)
    decreases d
  {
    match d
    case List(items) =>
      InlineItems(rules, items, env);
      ReadSequence(rules, EmitAll(items, None).0, env);
    case Record(fields) =>
      InlineFields(rules, fields, env);
      ReadMapping(rules, EmitFields(fields, None).0, env);
    case Strong(_, pointee) => InlineIsPlain(rules, pointee, env);
    case Weak(_, pointee) => InlineIsPlain(rules, pointee, env);
    case _ =>
  }

  /** A dangling pointer reads back as null wherever the resolution of plain scalars knows `null`. */
  lemma DanglingIsNull(rules: Rules, state: Tracked, env: Env)
    requires rules.resolvePlain("null") == PlainNull
    ensures Read(rules, Emit(Dangling, state).0, env) == Ok((Null, env))
  {
  }

  lemma {:induction false} InlineItems(rules: Rules, items: seq<Data>, env: Env)
    ensures Same(ReadAll(rules, EmitAll(items, None).0, env), PlainAll(rules, items), env)
    decreases items
  {
    if items != [] {
      InlineItems(rules, Front(items), env);
      InlineIsPlain(rules, Last(items), env);
      InlineIsRead(items);
      ReadOneMore(rules, EmitAll(Front(items), None).0, Inline(Last(items)), env);
    }
  }

  lemma {:induction false} InlineFields(rules: Rules, fields: seq<Field>, env: Env)
    ensures Same(ReadFields(rules, EmitFields(fields, None).0, env), PlainFields(rules, fields), env)
    decreases fields
  {
    if fields != [] {
      InlineFields(rules, Front(fields), env);
      var es := PlainFields(rules, Front(fields));
      InlineField(rules, Last(fields), if es.Ok? then es.value else [], env);
      InlineRecordIsRead(fields);
      ReadOneMoreField(rules, EmitFields(Front(fields), None).0, EmitField(Last(fields), None).0, env);
    }
  }

  lemma {:induction false} InlineField(rules: Rules, f: Field, es: seq<Entry>, env: Env)
    ensures Same(ReadField(rules, EmitField(f, None).0, es, env), PlainField(rules, f, es), env)
    decreases f
  {
    InlineIsPlain(rules, f.value, env);
    CleanIsReadable(f.value, None);
  }

  // ----- the value of data emitted under tracking -----

  /**
    * `env` binds the name of every pointer whose definition is complete to its plain value;
    * `open` are the pointers still being defined.
    */
  ghost predicate Synced(rules: Rules, heap: Heap, t: Tracker, env: Env, open: set<nat>) {
    && Numbered(t) && t.seen.Keys <= heap.Keys && |heap| <= U32_MAX
    && forall p :: p in t.seen && p !in open ==>
      FormatId(t.seen[p]) in env && Plain(rules, heap[p]) == Ok(env[FormatId(t.seen[p])])
  }

  /** What reading an emission tracked from `t` must give: the plain result, and all in step again. */
  ghost predicate Tracks<T>(rules: Rules, heap: Heap, t: Tracker, r: Result<(T, Env), Error>, p: Result<T, Error>,
                            state: Tracked, open: set<nat>) {
    match p
    case Ok(v) =>
      && r.Ok? && r.value.0 == v
      && state.Some? && Grows(t, state.value) && Synced(rules, heap, state.value, r.value.1, open)
    case Err(e) => r == Err(e)
  }

  /** Ids, once given, stay. */
  ghost predicate Grows(t: Tracker, t1: Tracker) {
    forall p :: p in t.seen ==> p in t1.seen && t1.seen[p] == t.seen[p]
  }

  lemma SubsetSize(a: set<nat>, b: set<nat>)
    requires a <= b
    ensures |a| <= |b|
  {
    assert b == a + (b - a);
  }

  /** A pointer seen for the first time gets an id no other has. */
  lemma FirstSight(rules: Rules, heap: Heap, t: Tracker, env: Env, open: set<nat>, ptr: nat)
    requires Synced(rules, heap, t, env, open) && ptr in heap && ptr !in t.seen
    ensures var t1 := Track(Some(t), ptr).1.value;
      Synced(rules, heap, t1, env, open + {ptr}) && Distinct(t1) && t1.seen[ptr] == t.nextId
  {
    var t1 := Track(Some(t), ptr).1.value;
    TrackKeepsNumbered(t, ptr);
    SubsetSize(t1.seen.Keys, heap.Keys);
    assert |t1.seen| == |t1.seen.Keys| <= |heap.Keys| == |heap|;
  }

  /** Completing a definition binds its name and disturbs no other. */
  lemma Defined(rules: Rules, heap: Heap, t: Tracker, env: Env, open: set<nat>, ptr: nat, v: Value)
    requires Synced(rules, heap, t, env, open + {ptr}) && ptr in t.seen && ptr !in open
    requires Plain(rules, heap[ptr]) == Ok(v)
    ensures Synced(rules, heap, t, env[FormatId(t.seen[ptr]) := v], open)
  {
    var name := FormatId(t.seen[ptr]);
    SubsetSize(t.seen.Keys, heap.Keys);
    assert |t.seen| == |t.seen.Keys| <= |heap.Keys| == |heap|;
    forall p | p in t.seen && p !in open && p != ptr
      ensures FormatId(t.seen[p]) in env && FormatId(t.seen[p]) != name
    {
      if FormatId(t.seen[p]) == name {
        NamesAreDistinct(t.seen[p], t.seen[ptr]);
      }
    }
  }

  /** A definition of a bare node binds its name once the node is read. */
  lemma DefinitionBinds(rules: Rules, w: Written, name: string, env: Env)
    requires !w.Definition? && !w.AliasText? && Parsed(w).Ok?
    ensures Read(rules, Definition(name, w), env) == Binding(name, Read(rules, w, env))
  {
  }

  /** A reading whose value is then bound to `name`. */
  ghost function Binding(name: string, r: Result<(Value, Env), Error>): Result<(Value, Env), Error> {
    match r case Ok((v, env1)) => Ok((v, env1[name := v])) case Err(e) => Err(e)
  }

  lemma DefinitionTracks(
      rules: Rules, heap: Heap, t: Tracker, t1: Tracker, r: Result<(Value, Env), Error>, p: Result<Value, Error>,
      state: Tracked, open: set<nat>, ptr: nat)
    requires Tracks(rules, heap, t1, r, p, state, open + {ptr})
    requires ptr in heap && p == Plain(rules, heap[ptr]) && ptr !in open
    requires Grows(t, t1) && ptr in t1.seen
    ensures Tracks(rules, heap, t, Binding(FormatId(t1.seen[ptr]), r), p, state, open)
  {
    if p.Ok? {
      Defined(rules, heap, state.value, r.value.1, open, ptr, p.value);
    }
  }

  /**
    * The heart of the round trip: whatever has been defined so far, reading what tracking
    * writes for `d` gives the plain value of `d`, or the very fault inlining would give. The
    * pointers still being defined cannot occur in `d`, so no alias precedes its definition.
    */
  lemma {:induction false} TrackedIsPlain(rules: Rules, heap: Heap, d: Data, t: Tracker, env: Env, open: set<nat>)
    requires Synced(rules, heap, t, env, open) && InHeap(heap, d) && Pointers(d) !! open
    requires Clean(d, Some(t))
    ensures var (w, s) := Emit(d, Some(t)); Tracks(rules, heap, t, Read(rules, w, env), Plain(rules, d), s, open)
    decreases d, 0
  {
    match d
    case List(items) =>
      TrackedItems(rules, heap, items, t, env, open);
      ReadSequence(rules, EmitAll(items, Some(t)).0, env);
    case Record(fields) =>
      TrackedFields(rules, heap, fields, t, env, open);
      ReadMapping(rules, EmitFields(fields, Some(t)).0, env);
    case Strong(ptr, pointee) =>
      if ptr !in t.seen {
        TrackedDefinition(rules, heap, ptr, pointee, t, env, open);
      }
    case Weak(ptr, pointee) =>
      if ptr !in t.seen {
        TrackedIsPlain(rules, heap, pointee, t, env, open);
      }
    case _ =>
  }

  lemma {:induction false} TrackedDefinition(
      rules: Rules, heap: Heap, ptr: nat, pointee: Data, t: Tracker, env: Env, open: set<nat>)
    requires Synced(rules, heap, t, env, open) && InHeap(heap, Strong(ptr, pointee)) && ptr !in t.seen
    requires Pointers(Strong(ptr, pointee)) !! open
    requires Clean(Strong(ptr, pointee), Some(t))
    ensures var (w, s) := Emit(Strong(ptr, pointee), Some(t));
      Tracks(rules, heap, t, Read(rules, w, env), Plain(rules, pointee), s, open)
    decreases pointee, 1
  {
    FirstSight(rules, heap, t, env, open, ptr);
    var t1 := Track(Some(t), ptr).1.value;
    if ptr in Pointers(pointee) {
      PointeesAreSmaller(heap, pointee, ptr);
    }
    TrackedIsPlain(rules, heap, pointee, t1, env, open + {ptr});
    var (w, s) := Emit(pointee, Some(t1));
    UndecoratedIsBare(pointee, t1);
    CleanIsReadable(pointee, Some(t1));
    DefinitionBinds(rules, w, FormatId(t.nextId), env);
    DefinitionTracks(rules, heap, t, t1, Read(rules, w, env), Plain(rules, pointee), s, open, ptr);
  }

  lemma {:induction false} TrackedItems(
      rules: Rules, heap: Heap, items: seq<Data>, t: Tracker, env: Env, open: set<nat>)
    requires Synced(rules, heap, t, env, open) && AllInHeap(heap, items) && PointersOf(items) !! open
    requires CleanAll(items, Some(t))
    ensures var (ws, s) := EmitAll(items, Some(t));
      Tracks(rules, heap, t, ReadAll(rules, ws, env), PlainAll(rules, items), s, open)
    decreases items
  {
    if items != [] {
      TrackedItems(rules, heap, Front(items), t, env, open);
      var (ws, s) := EmitAll(Front(items), Some(t));
      CleanItems(Front(items), Some(t));
      CleanIsReadable(Last(items), s);
      ReadOneMore(rules, ws, Emit(Last(items), s).0, env);
      if PlainAll(rules, Front(items)).Ok? {
        TrackedIsPlain(rules, heap, Last(items), s.value, ReadAll(rules, ws, env).value.1, open);
      }
    }
  }

  lemma {:induction false} TrackedFields(
      rules: Rules, heap: Heap, fields: seq<Field>, t: Tracker, env: Env, open: set<nat>)
    requires Synced(rules, heap, t, env, open) && FieldsInHeap(heap, fields) && PointersOfFields(fields) !! open
    requires CleanFields(fields, Some(t))
    ensures var (fs, s) := EmitFields(fields, Some(t));
      Tracks(rules, heap, t, ReadFields(rules, fs, env), PlainFields(rules, fields), s, open)
    decreases fields
  {
    if fields != [] {
      TrackedFields(rules, heap, Front(fields), t, env, open);
      var (fs, s) := EmitFields(Front(fields), Some(t));
      CleanRecord(Front(fields), Some(t));
      CleanEntry(Last(fields), s);
      ReadOneMoreField(rules, fs, EmitField(Last(fields), s).0, env);
      var es := PlainFields(rules, Front(fields));
      if es.Ok? {
        TrackedField(rules, heap, Last(fields), es.value, s.value, ReadFields(rules, fs, env).value.1, open);
      }
    }
  }

  lemma {:induction false} TrackedField(
      rules: Rules, heap: Heap, f: Field, es: seq<Entry>, t: Tracker, env: Env, open: set<nat>)
    requires Synced(rules, heap, t, env, open) && FieldInHeap(heap, f) && PointersOfField(f) !! open
    requires CleanField(f, Some(t))
    ensures var (w, s) := EmitField(f, Some(t));
      Tracks(rules, heap, t, ReadField(rules, w, es, env), PlainField(rules, f, es), s, open)
    decreases f
  {
    TrackedIsPlain(rules, heap, f.value, t, env, open);
    CleanIsReadable(f.value, Some(t));
  }

  // ----- whole documents -----

  /** What is written for `d` under a fresh scope. */
  function Shared(d: Data): Written { Emit(d, Some(NONE_SEEN)).0 }

  /** What a written document means: the meaning of its node, once it is read as one. */
  function ReadBack(rules: Rules, w: Written): Result<Option<Value>, Error> {
    var n :- Parsed(w);
    DenoteStream(rules, [n])
  }

  lemma ReadDocument(rules: Rules, w: Written, v: Result<Value, Error>)
    requires var r := Read(rules, w, map[]); if v.Ok? then r.Ok? && r.value.0 == v.value else r == Err(v.error)
    ensures ReadBack(rules, w) == AsRoot(v)
  {
    var parsed := Parsed(w);
    if parsed.Ok? {
      var n := parsed.value;
      assert Front([n]) == [] && Last([n]) == n;
      assert DenoteStream(rules, []) == Ok(None);
    }
  }

  function AsRoot(v: Result<Value, Error>): Result<Option<Value>, Error> {
    if v.Ok? then Ok(Some(v.value)) else Err(v.error)
  }

  /** Written inline, the data means its plain value; so it does under tracking, if it is clean. */
  lemma SharedMeansPlain(rules: Rules, heap: Heap, d: Data)
    requires InHeap(heap, d) && |heap| <= U32_MAX
    ensures ReadBack(rules, Inline(d)) == AsRoot(Plain(rules, d))
    ensures Clean(d, Some(NONE_SEEN)) ==> ReadBack(rules, Shared(d)) == AsRoot(Plain(rules, d))
  {
    InlineIsPlain(rules, d, map[]);
    ReadDocument(rules, Inline(d), Plain(rules, d));
    if Clean(d, Some(NONE_SEEN)) {
      TrackedIsPlain(rules, heap, d, NONE_SEEN, map[], {});
      ReadDocument(rules, Shared(d), Plain(rules, d));
    }
  }

  /**
    * Sharing is faithful exactly on clean data: what is written under tracking means what is
    * written inline if and only if no pointer seen for the first time wraps a node that is
    * itself written with an anchor or an alias.
    */
  lemma RoundTripIsExact(rules: Rules, heap: Heap, d: Data)
    requires InHeap(heap, d) && |heap| <= U32_MAX
    ensures ReadBack(rules, Shared(d)) == ReadBack(rules, Inline(d)) <==> Clean(d, Some(NONE_SEEN))
  {
    SharedMeansPlain(rules, heap, d);
    CleanIsReadable(d, Some(NONE_SEEN));
  }

  /** A pointer to a pointer is written with two anchors on one node, which no reader accepts. */
  lemma PointerToPointerFails(rules: Rules, p: nat, q: nat, text: string)
    requires p != q
    ensures var d := Strong(p, Strong(q, Leaf(text, Quoted, None)));
      && Shared(d) == Definition("id001", Definition("id002", ScalarText(text, Quoted, None)))
      && ReadBack(rules, Shared(d)) == Err(SecondAnchor)
      && ReadBack(rules, Inline(d)) == Ok(Some(String(text)))
  {
    var leaf := Leaf(text, Quoted, None);
    var inner := Strong(q, leaf);
    var d := Strong(p, inner);
    FirstNames();
    var t1 := Track(Some(NONE_SEEN), p).1;
    var t2 := Track(t1, q).1;
    assert Emit(leaf, t2) == (ScalarText(text, Quoted, None), t2);
    assert Emit(inner, t1) == (Definition("id002", ScalarText(text, Quoted, None)), t2);
    assert Emit(d, Some(NONE_SEEN)).0 == Definition("id001", Emit(inner, t1).0);
    assert Plain(rules, inner) == Plain(rules, leaf) == Ok(String(text));
    assert Plain(rules, d) == Ok(String(text));
    InlineIsPlain(rules, d, map[]);
    ReadDocument(rules, Inline(d), Plain(rules, d));
  }

  lemma FirstNames()
    ensures FormatId(1) == "id001" && FormatId(2) == "id002"
  {
    assert Decimal(1) == "1" && Decimal(2) == "2";
    assert Pad("001") == "001" && Pad("002") == "002";
    assert "0" + "01" == "001" && "0" + "02" == "002";
    assert Pad("01") == "001" && Pad("02") == "002";
    assert "0" + "1" == "01" && "0" + "2" == "02";
  }

  /** And with an anchor on an alias, when the inner pointer was seen before. */
  lemma PointerToSeenPointerFails(p: nat, q: nat, pointee: Data, t: Tracker)
    requires p != q && p !in t.seen && q in t.seen
    ensures var w := Emit(Strong(p, Strong(q, pointee)), Some(t)).0; Parsed(w) == Err(DecoratedAlias)
  {
  }

  /** No strong pointer points at a pointer. */
  ghost predicate Flat(d: Data)
    decreases d
  {
    match d
    case List(items) => FlatAll(items)
    case Record(fields) => FlatFields(fields)
    case Strong(_, pointee) => !pointee.Strong? && !pointee.Weak? && Flat(pointee)
    case Weak(_, pointee) => Flat(pointee)
    case _ => true
  }

  ghost predicate FlatAll(items: seq<Data>)
    decreases items
  {
    items != [] ==> FlatAll(Front(items)) && Flat(Last(items))
  }

  ghost predicate FlatFields(fields: seq<Field>)
    decreases fields
  {
    fields != [] ==> FlatFields(Front(fields)) && FlatField(Last(fields))
  }

  ghost predicate FlatField(f: Field)
    decreases f
  {
    Flat(f.value)
  }

  /** Flat data is clean, whatever was seen before. */
  lemma {:induction false} FlatIsClean(d: Data, state: Tracked)
    requires Flat(d)
    ensures Clean(d, state)
    decreases d
  {
    match d
    case List(items) => FlatItemsAreClean(items, state);
    case Record(fields) => FlatFieldsAreClean(fields, state);
    case Strong(ptr, pointee) => FlatIsClean(pointee, Track(state, ptr).1);
    case Weak(_, pointee) => FlatIsClean(pointee, state);
    case _ =>
  }

  lemma {:induction false} FlatItemsAreClean(items: seq<Data>, state: Tracked)
    requires FlatAll(items)
    ensures CleanAll(items, state)
    decreases items
  {
    if items != [] {
      FlatItemsAreClean(Front(items), state);
      FlatIsClean(Last(items), EmitAll(Front(items), state).1);
    }
  }

  lemma {:induction false} FlatFieldsAreClean(fields: seq<Field>, state: Tracked)
    requires FlatFields(fields)
    ensures CleanFields(fields, state)
    decreases fields
  {
    if fields != [] {
      FlatFieldsAreClean(Front(fields), state);
      FlatFieldIsClean(Last(fields), EmitFields(Front(fields), state).1);
    }
  }

  lemma {:induction false} FlatFieldIsClean(f: Field, state: Tracked)
    requires FlatField(f)
    ensures CleanField(f, state)
    decreases f
  {
    FlatIsClean(f.value, state);
  }

  /**
    * The round trip end to end: serialize any acyclic data of at most 2^32 - 1 shared pointees
    * under tracking and load what is written with the builder. If the data is clean, the tree
    * is the one it stands for, unless a limit refuses; if it is not, nothing is read back.
    */
  lemma SharedLoadsPlain(c: Config, heap: Heap, d: Data)
    requires InHeap(heap, d) && |heap| <= U32_MAX
    ensures Clean(d, Some(NONE_SEEN)) <==> Parsed(Shared(d)).Ok?
    ensures Clean(d, Some(NONE_SEEN)) ==>
      match Run(StepOf(c), START, SpellStream([Parsed(Shared(d)).value]))
      case Ok(s) => s.result.Some? && Plain(c.rules, d) == Ok(s.result.value)
      case Err(e) => e.IsLimit() || Plain(c.rules, d) == Err(e)
  {
    CleanIsReadable(d, Some(NONE_SEEN));
    if Clean(d, Some(NONE_SEEN)) {
      SharedMeansPlain(c.rules, heap, d);
      LoadMeansStream(c, [Parsed(Shared(d)).value]);
    }
  }
}
