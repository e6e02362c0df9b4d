/** Raising any limit never changes the result of a walk that succeeded. */
module IncludeLimits {
  import opened Common
  import opened OwnedTree
  import opened Include

  /** `w2` is `w1` with every limit at least as high. */
  ghost predicate Raised(w1: World, w2: World) {
    && w2.resolve == w1.resolve && w2.parse == w1.parse
    && w1.maxIncludeDepth <= w2.maxIncludeDepth && w1.maxIncludeSources <= w2.maxIncludeSources
    && w1.maxTotalIncludeBytes <= w2.maxTotalIncludeBytes && w1.maxDepth <= w2.maxDepth
    && w1.maxDocumentLength <= w2.maxDocumentLength && w1.maxTotalScalarBytes <= w2.maxTotalScalarBytes
  }

  /** An answer within the byte allowance is the same under a higher one; beyond it the resolver may cut short. */
  ghost predicate AnswersWithinAllowance(w: World) {
    forall r: Request, n: nat, m: nat ::
      r.maxBytes <= m && w.resolve(r, n).Ok? && Utf8Len(w.resolve(r, n).value.bytes) <= r.maxBytes ==>
        w.resolve(r.(maxBytes := m), n) == w.resolve(r, n)
  }

  /** What the parser accepts it accepts alike when it may nest deeper. */
  ghost predicate ParserIsMonotone(w: World) {
    forall bytes, d: nat, d1: nat :: d <= d1 && w.parse(bytes, d).Ok? ==> w.parse(bytes, d1) == w.parse(bytes, d)
  }

  /** Only what is told of a raised limit has to bear it: the resolver its allowance, the parser its nesting. */
  ghost predicate Comparable(w1: World, w2: World) {
    && Raised(w1, w2)
    && (SameAllowance(w1, w2) || AnswersWithinAllowance(w1))
    && (w1.maxDepth == w2.maxDepth || ParserIsMonotone(w1))
  }

  ghost predicate SameAllowance(w1: World, w2: World) {
    w1.maxTotalIncludeBytes == w2.maxTotalIncludeBytes && w1.maxDocumentLength == w2.maxDocumentLength
  }

  function Allowance(w: World, s: Counters): nat {
    Min(SatSub(w.maxTotalIncludeBytes, s.bytes), w.maxDocumentLength)
  }

  /** An answer that is charged under the lower limits was within the allowance, or the allowance is not raised. */
  lemma SameAnswer(w1: World, w2: World, r: Request, s: Counters)
    requires Comparable(w1, w2) && r.maxBytes == Allowance(w1, s)
    requires w1.resolve(r, s.sources).Ok? && Charge(w1, s, w1.resolve(r, s.sources).value).Ok?
    ensures w2.resolve(r.(maxBytes := Allowance(w2, s)), s.sources) == w1.resolve(r, s.sources)
  {
    assert r.maxBytes <= Allowance(w2, s);
    if Allowance(w2, s) == r.maxBytes {
      assert r.(maxBytes := Allowance(w2, s)) == r;
    }
  }

  lemma FetchIsMonotone(w1: World, w2: World, spec: string, at: At, s: Counters)
    requires Comparable(w1, w2) && Fetch(w1, spec, at, s).Ok?
    ensures Fetch(w2, spec, at, s) == Fetch(w1, spec, at, s)
  {
    var r := Request(spec, at.fromId, at.includeDepth, Allowance(w1, s));
    SameAnswer(w1, w2, r, s);
    var source := w1.resolve(r, s.sources).value;
    assert Charge(w2, s, source) == Charge(w1, s, source);
    assert w1.parse(source.bytes, SatSub(w2.maxDepth, at.treeDepth)) ==
      w1.parse(source.bytes, SatSub(w1.maxDepth, at.treeDepth));
  }

  lemma {:induction false} WalkIsMonotone(w1: World, w2: World, v: Value, at: At, s: Counters)
    requires Comparable(w1, w2) && Walk(w1, v, at, s).Ok?
    ensures Walk(w2, v, at, s) == Walk(w1, v, at, s)
    decreases Left(w1, at), v, 1
  {
    if IsInclude(v) {
      LoadIsMonotone(w1, w2, v.inner.s, at, s.(scalarBytes := SatSub(s.scalarBytes, Utf8Len(v.inner.s))));
    } else {
      match v
      case Tagged(_, inner) => WalkIsMonotone(w1, w2, inner, at, s);
      case Sequence(items) => ItemsAreMonotone(w1, w2, items, Inner(at), s);
      case Mapping(entries) => EntriesAreMonotone(w1, w2, entries, Inner(at), s);
      case _ =>
    }
  }

  lemma {:induction false} ItemsAreMonotone(w1: World, w2: World, items: seq<Value>, at: At, s: Counters)
    requires Comparable(w1, w2) && WalkItems(w1, items, at, s).Ok?
    ensures WalkItems(w2, items, at, s) == WalkItems(w1, items, at, s)
    decreases Left(w1, at), items, 0
  {
    if items != [] {
      ItemsAreMonotone(w1, w2, Front(items), at, s);
      WalkIsMonotone(w1, w2, Last(items), at, WalkItems(w1, Front(items), at, s).value.1);
    }
  }

  lemma {:induction false} EntriesAreMonotone(w1: World, w2: World, entries: seq<Entry>, at: At, s: Counters)
    requires Comparable(w1, w2) && WalkEntries(w1, entries, at, s).Ok?
    ensures WalkEntries(w2, entries, at, s) == WalkEntries(w1, entries, at, s)
    decreases Left(w1, at), entries, 0
  {
    if entries != [] {
      EntriesAreMonotone(w1, w2, Front(entries), at, s);
      WalkIsMonotone(w1, w2, Last(entries).value, at, WalkEntries(w1, Front(entries), at, s).value.1);
    }
  }

  lemma {:induction false} LoadIsMonotone(w1: World, w2: World, spec: string, at: At, s: Counters)
    requires Comparable(w1, w2) && Load(w1, spec, at, s).Ok?
    ensures Load(w2, spec, at, s) == Load(w1, spec, at, s)
    decreases Left(w1, at), spec, 0
  {
    FetchIsMonotone(w1, w2, spec, at, s);
    var (included, _, s1) := Fetch(w1, spec, at, s).value;
    WalkIsMonotone(w1, w2, included, At(at.includeDepth + 1, s.nextId, at.treeDepth), s1);
  }
}
