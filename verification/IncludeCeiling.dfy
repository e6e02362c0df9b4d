/**
  * The nesting ceiling. The loaders never build a tree deeper than 256, whatever `max_depth`
  * says; an include walk keeps to the configured `max_depth` only, so it keeps to the ceiling
  * exactly when the configured limit does.
  */
module IncludeCeiling {
  import opened Common
  import opened Errors
  import opened Limits
  import opened OwnedTree
  import opened Include
  import opened IncludeOutcome
  import IncludeWalking
  import Recheck

  const TOP := At(0, 0, 0)

  lemma CeilingHolds(w: World, v: Value, s: Counters)
    requires w.maxDepth <= 256
    requires ParserKeepsDepth(w) && Height(v) <= w.maxDepth && Walk(w, v, TOP, s).Ok?
    ensures Height(Walk(w, v, TOP, s).value.0) <= w.maxDepth
  {
    WalkKeepsDepth(w, v, TOP, s);
  }

  function Nested(depth: nat): Value {
    if depth == 0 then Null else Sequence([Nested(depth - 1)])
  }

  lemma OneItem(v: Value)
    ensures var l := Sequence([v]);
      && Height(l) == 1 + Height(v) && Nodes(l) == 1 + Nodes(v)
      && (Resolved(l) <==> Resolved(v)) && Text(l) == Text(v)
  {
    assert Front([v]) == [] && Last([v]) == v;
    assert HeightAll([v]) == Height(v) && NodesAll([v]) == Nodes(v) && TextAll([v]) == Text(v) &&
      (AllResolved([v]) <==> Resolved(v));
  }

  lemma {:induction false} NestedHeight(depth: nat)
    ensures Height(Nested(depth)) == depth && Nodes(Nested(depth)) == depth + 1
    ensures Resolved(Nested(depth)) && Text(Nested(depth)) == 0
  {
    if depth > 0 {
      NestedHeight(depth - 1);
      OneItem(Nested(depth - 1));
    }
  }

  /** A world whose one source is `tree`, which the parser accepts when it may use the whole ceiling. */
  function Escaping(maxDepth: usize, tree: Value): (w: World)
    ensures w.maxDepth == maxDepth
  {
    World(
      (r: Request, n: nat) => Ok(Source("a", "")),
      (bytes: string, depth: nat) =>
        if depth < MAX_DEPTH_CEILING then Err(RecursionLimitExceeded(depth + 1)) else Ok(tree),
      1, 1, 1, maxDepth, 1, 1, 1000)
  }

  const DIRECTIVE := Tagged(INCLUDE, String("a"))

  const BEGIN := Counters({}, 1, 0, 0, 1)

  lemma DirectiveLoads(maxDepth: usize, tree: Value)
    requires maxDepth > MAX_DEPTH_CEILING && Resolved(tree) && Text(tree) == 0
    ensures var w := Escaping(maxDepth, tree);
      Walk(w, DIRECTIVE, Inner(TOP), BEGIN).Ok? && Walk(w, DIRECTIVE, Inner(TOP), BEGIN).value.0 == tree
  {
    var w, at := Escaping(maxDepth, tree), Inner(TOP);
    assert Utf8Len("a") == 1 && Utf8Len("") == 0;
    var s1 := BEGIN.(scalarBytes := 0);
    var s2 := Counters({"a"}, 2, 1, 0, 0);
    assert Charge(w, s1, Source("a", "")) == Ok(s1.(sources := 1));
    assert s1.visited + {"a"} == s2.visited && SatAdd(0, Sat(Text(tree))) == 0;
    assert Fetch(w, "a", at, s1) == Ok((tree, "a", s2));
    ResolvedIsFixed(w, tree, At(1, 1, 1), s2);
    assert SplitFragment("a").1 == None;
  }

  lemma WalkLastItem(w: World, items: seq<Value>, at: At, s: Counters, v1: Value, s1: Counters)
    requires |items| == 1 && Walk(w, items[0], at, s) == Ok((v1, s1))
    ensures WalkItems(w, items, at, s) == Ok(([v1], s1))
  {
    assert Front(items) == [] && Last(items) == items[0];
    assert WalkItems(w, Front(items), at, s) == Ok(([], s));
    assert [] + [v1] == [v1];
  }

  lemma WalkOneItem(w: World, v: Value, at: At, s: Counters)
    requires Walk(w, v, Inner(at), s).Ok?
    ensures var (v1, s1) := Walk(w, v, Inner(at), s).value; Walk(w, Sequence([v]), at, s) == Ok((Sequence([v1]), s1))
  {
    var (v1, s1) := Walk(w, v, Inner(at), s).value;
    WalkLastItem(w, [v], Inner(at), s, v1, s1);
  }

  lemma EscapingKeepsDepth(maxDepth: usize, tree: Value)
    requires Height(tree) == MAX_DEPTH_CEILING
    ensures ParserKeepsDepth(Escaping(maxDepth, tree))
  {
  }

  /**
    * With any larger `max_depth` there is a run that ends one level above the ceiling, and whose
    * tree passes the re-check: the whole pass accepts it.
    */
  lemma CeilingEscapes(maxDepth: usize) returns (w: World, v: Value)
    requires maxDepth > 256
    ensures w.maxDepth == maxDepth && ParserKeepsDepth(w) && Height(v) <= 256
    ensures IncludeWalking.Whole(w, v).Ok?
    ensures var tree := IncludeWalking.Whole(w, v).value.0;
      && Height(tree) == 257
      && Recheck.WithinBudgets(tree, w.maxNodes, w.maxTotalScalarBytes)
  {
    var depth: nat :| depth == MAX_DEPTH_CEILING;
    var tree := Nested(depth);
    NestedHeight(depth);
    w, v := Escaping(maxDepth, tree), Sequence([DIRECTIVE]);
    EscapingKeepsDepth(maxDepth, tree);
    DirectiveLoads(maxDepth, tree);
    WalkOneItem(w, DIRECTIVE, TOP, BEGIN);
    OneItem(DIRECTIVE);
    OneItem(tree);
    DirectiveText();
  }

  lemma DirectiveText()
    ensures Text(DIRECTIVE) == 1
  {
    assert Utf8Len("a") == 1;
  }

  // ----- how far above the ceiling -----

  /** The nesting `levels` includes can reach: a ceiling's worth for the document and for each of them. */
  function Reach(levels: nat): nat { (levels + 1) * 256 }

  /** Every include adds at most one ceiling. */
  lemma {:induction false} WalkKeepsReach(w: World, v: Value, at: At, s: Counters)
    requires ParserKeepsDepth(w) && Walk(w, v, at, s).Ok? && at.includeDepth <= w.maxIncludeDepth
    requires at.treeDepth + Height(v) <= Reach(at.includeDepth)
    ensures at.treeDepth + Height(Walk(w, v, at, s).value.0) <= Reach(w.maxIncludeDepth)
    decreases Left(w, at), v, 1
  {
    if IsInclude(v) {
      LoadKeepsReach(w, v.inner.s, at, s.(scalarBytes := SatSub(s.scalarBytes, Utf8Len(v.inner.s))));
    } else {
      match v
      case Tagged(_, inner) => WalkKeepsReach(w, inner, at, s);
      case Sequence(items) => ItemsKeepReach(w, items, Inner(at), s);
      case Mapping(entries) => EntriesKeepReach(w, entries, Inner(at), s);
      case _ =>
    }
  }

  lemma {:induction false} ItemsKeepReach(w: World, items: seq<Value>, at: At, s: Counters)
    requires ParserKeepsDepth(w) && WalkItems(w, items, at, s).Ok? && at.includeDepth <= w.maxIncludeDepth
    requires at.treeDepth + HeightAll(items) <= Reach(at.includeDepth)
    ensures at.treeDepth + HeightAll(WalkItems(w, items, at, s).value.0) <= Reach(w.maxIncludeDepth)
    decreases Left(w, at), items, 0
  {
    if items != [] {
      ItemsKeepReach(w, Front(items), at, s);
      var (front, s1) := WalkItems(w, Front(items), at, s).value;
      WalkKeepsReach(w, Last(items), at, s1);
      assert Front(WalkItems(w, items, at, s).value.0) == front;
    }
  }

  lemma {:induction false} EntriesKeepReach(w: World, entries: seq<Entry>, at: At, s: Counters)
    requires ParserKeepsDepth(w) && WalkEntries(w, entries, at, s).Ok? && at.includeDepth <= w.maxIncludeDepth
    requires at.treeDepth + HeightOfEntries(entries) <= Reach(at.includeDepth)
    ensures at.treeDepth + HeightOfEntries(WalkEntries(w, entries, at, s).value.0) <= Reach(w.maxIncludeDepth)
    decreases Left(w, at), entries, 0
  {
    if entries != [] {
      EntriesKeepReach(w, Front(entries), at, s);
      var (front, s1) := WalkEntries(w, Front(entries), at, s).value;
      WalkKeepsReach(w, Last(entries).value, at, s1);
      assert Front(WalkEntries(w, entries, at, s).value.0) == front;
    }
  }

  lemma {:induction false} LoadKeepsReach(w: World, spec: string, at: At, s: Counters)
    requires ParserKeepsDepth(w) && Load(w, spec, at, s).Ok? && at.treeDepth <= Reach(at.includeDepth)
    ensures at.treeDepth + Height(Load(w, spec, at, s).value.0) <= Reach(w.maxIncludeDepth)
    decreases Left(w, at), spec, 0
  {
    var (included, _, s1) := Fetch(w, spec, at, s).value;
    var at1 := At(at.includeDepth + 1, s.nextId, at.treeDepth);
    WalkKeepsReach(w, included, at1, s1);
    SelectedIsLower(Walk(w, included, at1, s1).value.0, spec);
  }

  /** So a walked tree nests no deeper than the configured limit, nor than one ceiling an include level allows. */
  lemma NestingIsBounded(w: World, v: Value, s: Counters)
    requires ParserKeepsDepth(w) && Height(v) <= w.maxDepth && Height(v) <= 256 && Walk(w, v, TOP, s).Ok?
    ensures Height(Walk(w, v, TOP, s).value.0) <= Min(w.maxDepth, (w.maxIncludeDepth + 1) * 256)
  {
    WalkKeepsDepth(w, v, TOP, s);
    WalkKeepsReach(w, v, TOP, s);
  }
}
