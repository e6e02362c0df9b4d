/** What every successful include walk leaves behind. */
module IncludeOutcome {
  import opened Common
  import opened Errors
  import opened Limits
  import opened OwnedTree
  import opened Include

  // ----- no include is left, the chain is restored, the counters are within their limits -----

  ghost predicate Resolved(v: Value)
    decreases v
  {
    match v
    case Sequence(items) => AllResolved(items)
    case Mapping(entries) => EntriesResolved(entries)
    case Tagged(tag, inner) => tag != INCLUDE && Resolved(inner)
    case _ => true
  }

  ghost predicate AllResolved(items: seq<Value>)
    decreases items
  {
    items != [] ==> AllResolved(Front(items)) && Resolved(Last(items))
  }

  ghost predicate EntriesResolved(entries: seq<Entry>)
    decreases entries
  {
    entries != [] ==> EntriesResolved(Front(entries)) && Resolved(Last(entries).value)
  }

  /** Sources and bytes only grow and stay within their limits; the resolution chain is as it was. */
  ghost predicate Settled(w: World, s: Counters, s1: Counters) {
    && s1.visited == s.visited
    && s.sources <= s1.sources && s.bytes <= s1.bytes
    && (s.sources <= w.maxIncludeSources ==> s1.sources <= w.maxIncludeSources)
    && (s.bytes <= w.maxTotalIncludeBytes ==> s1.bytes <= w.maxTotalIncludeBytes)
    && (s.scalarBytes <= w.maxTotalScalarBytes ==> s1.scalarBytes <= w.maxTotalScalarBytes)
  }

  lemma {:induction false} GetIsResolved(entries: seq<Entry>, key: string)
    requires EntriesResolved(entries) && Get(entries, key).Some?
    ensures Resolved(Get(entries, key).value)
    decreases |entries|
  {
    if Last(entries).key != key {
      GetIsResolved(Front(entries), key);
    }
  }

  lemma SelectedIsResolved(included: Value, spec: string)
    requires Resolved(included) && SelectFragment(included, spec).Ok?
    ensures Resolved(SelectFragment(included, spec).value)
  {
    var fragment := SplitFragment(spec).1;
    if fragment.Some? {
      GetIsResolved(included.entries, fragment.value);
    }
  }

  lemma {:induction false} WalkResolves(w: World, v: Value, at: At, s: Counters)
    requires Walk(w, v, at, s).Ok?
    ensures var (v1, s1) := Walk(w, v, at, s).value; Resolved(v1) && Settled(w, s, s1)
    decreases Left(w, at), v, 1
  {
    if IsInclude(v) {
      LoadResolves(w, v.inner.s, at, s.(scalarBytes := SatSub(s.scalarBytes, Utf8Len(v.inner.s))));
    } else {
      match v
      case Tagged(_, inner) => WalkResolves(w, inner, at, s);
      case Sequence(items) => ItemsResolve(w, items, Inner(at), s);
      case Mapping(entries) => EntriesResolve(w, entries, Inner(at), s);
      case _ =>
    }
  }

  lemma {:induction false} ItemsResolve(w: World, items: seq<Value>, at: At, s: Counters)
    requires WalkItems(w, items, at, s).Ok?
    ensures var (items1, s1) := WalkItems(w, items, at, s).value; AllResolved(items1) && Settled(w, s, s1)
    decreases Left(w, at), items, 0
  {
    if items != [] {
      ItemsResolve(w, Front(items), at, s);
      var (front, s1) := WalkItems(w, Front(items), at, s).value;
      WalkResolves(w, Last(items), at, s1);
      var (last, s2) := Walk(w, Last(items), at, s1).value;
      assert WalkItems(w, items, at, s).value == (front + [last], s2);
      SettledTwice(w, s, s1, s2);
      ResolvedAppend(front, last);
    }
  }

  lemma SettledTwice(w: World, s: Counters, s1: Counters, s2: Counters)
    requires Settled(w, s, s1) && Settled(w, s1, s2)
    ensures Settled(w, s, s2)
  {
  }

  lemma ResolvedAppend(front: seq<Value>, last: Value)
    requires AllResolved(front) && Resolved(last)
    ensures AllResolved(front + [last])
  {
    assert Front(front + [last]) == front;
  }

  lemma EntriesResolvedAppend(front: seq<Entry>, last: Entry)
    requires EntriesResolved(front) && Resolved(last.value)
    ensures EntriesResolved(front + [last])
  {
    assert Front(front + [last]) == front;
  }

  lemma {:induction false} EntriesResolve(w: World, entries: seq<Entry>, at: At, s: Counters)
    requires WalkEntries(w, entries, at, s).Ok?
    ensures var (entries1, s1) := WalkEntries(w, entries, at, s).value; EntriesResolved(entries1) && Settled(w, s, s1)
    decreases Left(w, at), entries, 0
  {
    if entries != [] {
      EntriesResolve(w, Front(entries), at, s);
      var (front, s1) := WalkEntries(w, Front(entries), at, s).value;
      WalkResolves(w, Last(entries).value, at, s1);
      var (last, s2) := Walk(w, Last(entries).value, at, s1).value;
      var entry := Entry(Last(entries).key, last);
      assert WalkEntries(w, entries, at, s).value == (front + [entry], s2);
      SettledTwice(w, s, s1, s2);
      EntriesResolvedAppend(front, entry);
    }
  }

  lemma {:induction false} LoadResolves(w: World, spec: string, at: At, s: Counters)
    requires Load(w, spec, at, s).Ok?
    ensures var (v1, s1) := Load(w, spec, at, s).value; Resolved(v1) && Settled(w, s, s1)
    decreases Left(w, at), spec, 0
  {
    var (included, identity, s1) := Fetch(w, spec, at, s).value;
    var at1 := At(at.includeDepth + 1, s.nextId, at.treeDepth);
    WalkResolves(w, included, at1, s1);
    var (resolved, s2) := Walk(w, included, at1, s1).value;
    SelectedIsResolved(resolved, spec);
    assert s2.visited - {identity} == s.visited;
  }

  // ----- the final tree nests no deeper than the limit -----

  /** The parser keeps the nesting it is told, below the ceiling. */
  ghost predicate ParserKeepsDepth(w: World) {
    forall bytes, depth: nat :: w.parse(bytes, depth).Ok? ==>
      Height(w.parse(bytes, depth).value) <= EffectiveMaxDepth(depth)
  }

  lemma {:induction false} GetIsLower(entries: seq<Entry>, key: string)
    requires Get(entries, key).Some?
    ensures Height(Get(entries, key).value) <= HeightOfEntries(entries)
    decreases |entries|
  {
    if Last(entries).key != key {
      GetIsLower(Front(entries), key);
    }
  }

  lemma SelectedIsLower(included: Value, spec: string)
    requires SelectFragment(included, spec).Ok?
    ensures Height(SelectFragment(included, spec).value) <= Height(included)
  {
    var fragment := SplitFragment(spec).1;
    if fragment.Some? {
      GetIsLower(included.entries, fragment.value);
    }
  }

  /**
    * Every source is parsed with only the nesting left at its position, so a tree that starts
    * within `max_depth` ends within it.
    */
  lemma {:induction false} WalkKeepsDepth(w: World, v: Value, at: At, s: Counters)
    requires ParserKeepsDepth(w) && Walk(w, v, at, s).Ok?
    requires at.treeDepth + Height(v) <= w.maxDepth
    ensures at.treeDepth + Height(Walk(w, v, at, s).value.0) <= w.maxDepth
    decreases Left(w, at), v, 1
  {
    if IsInclude(v) {
      LoadKeepsDepth(w, v.inner.s, at, s.(scalarBytes := SatSub(s.scalarBytes, Utf8Len(v.inner.s))));
    } else {
      match v
      case Tagged(_, inner) => WalkKeepsDepth(w, inner, at, s);
      case Sequence(items) => ItemsKeepDepth(w, items, Inner(at), s);
      case Mapping(entries) => EntriesKeepDepth(w, entries, Inner(at), s);
      case _ =>
    }
  }

  lemma {:induction false} ItemsKeepDepth(w: World, items: seq<Value>, at: At, s: Counters)
    requires ParserKeepsDepth(w) && WalkItems(w, items, at, s).Ok?
    requires at.treeDepth + HeightAll(items) <= w.maxDepth
    ensures at.treeDepth + HeightAll(WalkItems(w, items, at, s).value.0) <= w.maxDepth
    decreases Left(w, at), items, 0
  {
    if items != [] {
      ItemsKeepDepth(w, Front(items), at, s);
      var (front, s1) := WalkItems(w, Front(items), at, s).value;
      WalkKeepsDepth(w, Last(items), at, s1);
      assert Front(WalkItems(w, items, at, s).value.0) == front;
    }
  }

  lemma {:induction false} EntriesKeepDepth(w: World, entries: seq<Entry>, at: At, s: Counters)
    requires ParserKeepsDepth(w) && WalkEntries(w, entries, at, s).Ok?
    requires at.treeDepth + HeightOfEntries(entries) <= w.maxDepth
    ensures at.treeDepth + HeightOfEntries(WalkEntries(w, entries, at, s).value.0) <= w.maxDepth
    decreases Left(w, at), entries, 0
  {
    if entries != [] {
      EntriesKeepDepth(w, Front(entries), at, s);
      var (front, s1) := WalkEntries(w, Front(entries), at, s).value;
      WalkKeepsDepth(w, Last(entries).value, at, s1);
      assert Front(WalkEntries(w, entries, at, s).value.0) == front;
    }
  }

  lemma {:induction false} LoadKeepsDepth(w: World, spec: string, at: At, s: Counters)
    requires ParserKeepsDepth(w) && Load(w, spec, at, s).Ok? && at.treeDepth <= w.maxDepth
    ensures at.treeDepth + Height(Load(w, spec, at, s).value.0) <= w.maxDepth
    decreases Left(w, at), spec, 0
  {
    var (included, _, s1) := Fetch(w, spec, at, s).value;
    var at1 := At(at.includeDepth + 1, s.nextId, at.treeDepth);
    WalkKeepsDepth(w, included, at1, s1);
    SelectedIsLower(Walk(w, included, at1, s1).value.0, spec);
  }

  /** A tree without includes is walked to itself. */
  lemma {:induction false} ResolvedIsFixed(w: World, v: Value, at: At, s: Counters)
    requires Resolved(v)
    ensures Walk(w, v, at, s) == Ok((v, s))
    decreases v, 1
  {
    match v
    case Tagged(_, inner) => ResolvedIsFixed(w, inner, at, s);
    case Sequence(items) => ItemsAreFixed(w, items, Inner(at), s);
    case Mapping(entries) => EntriesAreFixed(w, entries, Inner(at), s);
    case _ =>
  }

  lemma {:induction false} ItemsAreFixed(w: World, items: seq<Value>, at: At, s: Counters)
    requires AllResolved(items)
    ensures WalkItems(w, items, at, s) == Ok((items, s))
    decreases items, 0
  {
    if items != [] {
      ItemsAreFixed(w, Front(items), at, s);
      ResolvedIsFixed(w, Last(items), at, s);
      assert items == Front(items) + [Last(items)];
    }
  }

  lemma {:induction false} EntriesAreFixed(w: World, entries: seq<Entry>, at: At, s: Counters)
    requires EntriesResolved(entries)
    ensures WalkEntries(w, entries, at, s) == Ok((entries, s))
    decreases entries, 0
  {
    if entries != [] {
      EntriesAreFixed(w, Front(entries), at, s);
      ResolvedIsFixed(w, Last(entries).value, at, s);
      assert entries == Front(entries) + [Entry(Last(entries).key, Last(entries).value)];
    }
  }
}
