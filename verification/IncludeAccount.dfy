/** The scalar-byte account of the walk is the text of the tree. */
module IncludeAccount {
  import opened Common
  import opened Errors
  import opened OwnedTree
  import opened Include
  import IncludeLimits

  /** No include under `v` names a fragment. */
  ghost predicate NoFragments(v: Value)
    decreases v
  {
    match v
    case Sequence(items) => ItemsNoFragments(items)
    case Mapping(entries) => EntriesNoFragments(entries)
    case Tagged(tag, inner) =>
      NoFragments(inner) && (tag == INCLUDE && inner.String? ==> SplitFragment(inner.s).1 == None)
    case _ => true
  }

  ghost predicate ItemsNoFragments(items: seq<Value>)
    decreases items
  {
    items != [] ==> ItemsNoFragments(Front(items)) && NoFragments(Last(items))
  }

  ghost predicate EntriesNoFragments(entries: seq<Entry>)
    decreases entries
  {
    entries != [] ==> EntriesNoFragments(Front(entries)) && NoFragments(Last(entries).value)
  }

  ghost predicate SourcesNoFragments(w: World) {
    forall bytes, depth: nat :: w.parse(bytes, depth).Ok? ==> NoFragments(w.parse(bytes, depth).value)
  }

  /**
    * Replacing text worth `before` by text worth `after` moved the account by the difference;
    * by no less, when fragments may drop part of a source.
    */
  ghost predicate Balanced(s: Counters, s1: Counters, before: nat, after: nat, exact: bool) {
    && s1.scalarBytes + before >= s.scalarBytes + after
    && (exact ==> s1.scalarBytes + before == s.scalarBytes + after)
  }

  lemma {:induction false} GetIsPart(entries: seq<Entry>, key: string)
    requires Get(entries, key).Some?
    ensures Text(Get(entries, key).value) <= TextOfEntries(entries)
    decreases |entries|
  {
    if Last(entries).key != key {
      GetIsPart(Front(entries), key);
    }
  }

  lemma SelectedIsPart(included: Value, spec: string)
    requires SelectFragment(included, spec).Ok?
    ensures Text(SelectFragment(included, spec).value) <= Text(included)
    ensures SplitFragment(spec).1 == None ==> SelectFragment(included, spec).value == included
  {
    var fragment := SplitFragment(spec).1;
    if fragment.Some? {
      GetIsPart(included.entries, fragment.value);
    }
  }

  /** A limit below the largest word makes saturation impossible in a successful run. */
  lemma {:induction false} WalkBalances(w: World, v: Value, at: At, s: Counters)
    requires w.maxTotalScalarBytes < USIZE_MAX && Walk(w, v, at, s).Ok? && Text(v) <= s.scalarBytes
    ensures var (v1, s1) := Walk(w, v, at, s).value;
      Balanced(s, s1, Text(v), Text(v1), SourcesNoFragments(w) && NoFragments(v))
    decreases Left(w, at), v, 1
  {
    if IsInclude(v) {
      LoadBalances(w, v.inner.s, at, s.(scalarBytes := SatSub(s.scalarBytes, Utf8Len(v.inner.s))));
    } else {
      match v
      case Tagged(_, inner) => WalkBalances(w, inner, at, s);
      case Sequence(items) => ItemsBalance(w, items, Inner(at), s);
      case Mapping(entries) => EntriesBalance(w, entries, Inner(at), s);
      case _ =>
    }
  }

  lemma {:induction false} ItemsBalance(w: World, items: seq<Value>, at: At, s: Counters)
    requires w.maxTotalScalarBytes < USIZE_MAX && WalkItems(w, items, at, s).Ok? && TextAll(items) <= s.scalarBytes
    ensures var (items1, s1) := WalkItems(w, items, at, s).value;
      Balanced(s, s1, TextAll(items), TextAll(items1), SourcesNoFragments(w) && ItemsNoFragments(items))
    decreases Left(w, at), items, 0
  {
    if items != [] {
      ItemsBalance(w, Front(items), at, s);
      var (front, s1) := WalkItems(w, Front(items), at, s).value;
      WalkBalances(w, Last(items), at, s1);
      assert Front(WalkItems(w, items, at, s).value.0) == front;
    }
  }

  lemma {:induction false} EntriesBalance(w: World, entries: seq<Entry>, at: At, s: Counters)
    requires w.maxTotalScalarBytes < USIZE_MAX && WalkEntries(w, entries, at, s).Ok?
    requires TextOfEntries(entries) <= s.scalarBytes
    ensures var (entries1, s1) := WalkEntries(w, entries, at, s).value;
      Balanced(s, s1, TextOfEntries(entries), TextOfEntries(entries1),
        SourcesNoFragments(w) && EntriesNoFragments(entries))
    decreases Left(w, at), entries, 0
  {
    if entries != [] {
      EntriesBalance(w, Front(entries), at, s);
      var (front, s1) := WalkEntries(w, Front(entries), at, s).value;
      WalkBalances(w, Last(entries).value, at, s1);
      assert Front(WalkEntries(w, entries, at, s).value.0) == front;
    }
  }

  lemma {:induction false} LoadBalances(w: World, spec: string, at: At, s: Counters)
    requires w.maxTotalScalarBytes < USIZE_MAX && Load(w, spec, at, s).Ok?
    ensures var (v1, s1) := Load(w, spec, at, s).value;
      Balanced(s, s1, 0, Text(v1), SourcesNoFragments(w) && SplitFragment(spec).1 == None)
    decreases Left(w, at), spec, 0
  {
    var (included, _, s1) := Fetch(w, spec, at, s).value;
    assert s1.scalarBytes == s.scalarBytes + Text(included);
    var at1 := At(at.includeDepth + 1, s.nextId, at.treeDepth);
    WalkBalances(w, included, at1, s1);
    SelectedIsPart(Walk(w, included, at1, s1).value.0, spec);
  }

  // ----- any limit, as long as the account does not stick at its top -----

  /** The world in which a scalar account at the largest word is refused. */
  function Unstuck(w: World): World { w.(maxTotalScalarBytes := Min(w.maxTotalScalarBytes, USIZE_MAX - 1)) }

  /**
    * Under every limit: a walk in which the account never reaches the largest word is the walk of
    * the unstuck world, and moves the account by the change in the tree's text.
    */
  lemma AccountIsConserved(w: World, v: Value, at: At, s: Counters)
    requires Walk(Unstuck(w), v, at, s).Ok? && Text(v) <= s.scalarBytes
    ensures Walk(w, v, at, s) == Walk(Unstuck(w), v, at, s)
    ensures var (v1, s1) := Walk(w, v, at, s).value;
      Balanced(s, s1, Text(v), Text(v1), SourcesNoFragments(w) && NoFragments(v))
  {
    IncludeLimits.WalkIsMonotone(Unstuck(w), w, v, at, s);
    WalkBalances(Unstuck(w), v, at, s);
  }

  /** The same for one include. */
  lemma IncludeIsAccounted(w: World, spec: string, at: At, s: Counters)
    requires Load(Unstuck(w), spec, at, s).Ok?
    ensures Load(w, spec, at, s) == Load(Unstuck(w), spec, at, s)
    ensures var (v1, s1) := Load(w, spec, at, s).value;
      Balanced(s, s1, 0, Text(v1), SourcesNoFragments(w) && SplitFragment(spec).1 == None)
  {
    IncludeLimits.LoadIsMonotone(Unstuck(w), w, spec, at, s);
    LoadBalances(Unstuck(w), spec, at, s);
  }
}
