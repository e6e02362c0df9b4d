/** The sources a walk is given, in order: who asks for each, what is charged for it, and why a walk is refused. */
module IncludeTrace {
  import opened Common
  import opened Errors
  import opened OwnedTree
  import opened Include
  import IncludeOutcome
  import IncludeWalking

  /** A request, and the source the resolver answered it with. */
  datatype Asked = Asked(request: Request, source: Source)

  type Trace = seq<Asked>

  function BytesOf(trace: Trace): nat {
    if trace == [] then 0 else BytesOf(Front(trace)) + Utf8Len(Last(trace).source.bytes)
  }

  // ----- the sources, in the order they are given -----

  function TraceWalk(w: World, v: Value, at: At, s: Counters): Trace
    decreases Left(w, at), v, 1
  {
    if IsInclude(v) then
      if v.inner.String? then TraceLoad(w, v.inner.s, at, s.(scalarBytes := SatSub(s.scalarBytes, Utf8Len(v.inner.s))))
      else []
    else
      match v
      case Tagged(_, inner) => TraceWalk(w, inner, at, s)
      case Sequence(items) => TraceItems(w, items, Inner(at), s)
      case Mapping(entries) => TraceEntries(w, entries, Inner(at), s)
      case _ => []
  }

  function TraceItems(w: World, items: seq<Value>, at: At, s: Counters): Trace
    decreases Left(w, at), items, 0
  {
    if items == [] then []
    else
      var before := WalkItems(w, Front(items), at, s);
      TraceItems(w, Front(items), at, s) + if before.Ok? then TraceWalk(w, Last(items), at, before.value.1) else []
  }

  function TraceEntries(w: World, entries: seq<Entry>, at: At, s: Counters): Trace
    decreases Left(w, at), entries, 0
  {
    if entries == [] then []
    else
      var before := WalkEntries(w, Front(entries), at, s);
      TraceEntries(w, Front(entries), at, s) +
        if before.Ok? then TraceWalk(w, Last(entries).value, at, before.value.1) else []
  }

  function TraceLoad(w: World, spec: string, at: At, s: Counters): Trace
    decreases Left(w, at), spec, 0
  {
    var first := TraceFetch(w, spec, at, s);
    var fetched := Fetch(w, spec, at, s);
    if fetched.Err? then first
    else first + TraceWalk(w, fetched.value.0, At(at.includeDepth + 1, s.nextId, at.treeDepth), fetched.value.2)
  }

  /** At most one source, the answer to the one request that is made. */
  function TraceFetch(w: World, spec: string, at: At, s: Counters): Trace {
    if at.includeDepth >= w.maxIncludeDepth then []
    else
      var left := if s.bytes <= w.maxTotalIncludeBytes then w.maxTotalIncludeBytes - s.bytes else 0;
      var r := Request(
        spec, at.fromId, at.includeDepth, if left <= w.maxDocumentLength then left else w.maxDocumentLength);
      var answer := w.resolve(r, s.sources);
      if answer.Ok? then [Asked(r, answer.value)] else []
  }

  // ----- what holds of them -----

  /** The counters that sources move. */
  datatype Totals = Totals(nextId: nat, sources: nat, bytes: nat)

  function TotalsOf(s: Counters): Totals { Totals(s.nextId, s.sources, s.bytes) }

  /** The document at hand: its identifier and how many includes deep it is. */
  datatype Place = Place(fromId: nat, depth: nat)

  function PlaceOf(at: At): Place { Place(at.fromId, at.includeDepth) }

  datatype Outcome = Done(totals: Totals) | Refused(error: Error)

  function OutcomeOf<T>(r: Result<(T, Counters), Error>): Outcome {
    match r case Ok((_, s)) => Done(TotalsOf(s)) case Err(e) => Refused(e)
  }

  /** The counters have moved by the sources given: their number, their bytes, one identifier each. */
  ghost predicate Accounts(s: Totals, s1: Totals, trace: Trace) {
    && s1.sources == Sat(s.sources + |trace|)
    && s1.bytes == Sat(s.bytes + BytesOf(trace))
    && s1.nextId == s.nextId + |trace|
  }

  /** No source is longer than a document may be, nor asked for from too deep. */
  ghost predicate AllFit(w: World, trace: Trace) {
    forall i :: 0 <= i < |trace| ==>
      Utf8Len(trace[i].source.bytes) <= w.maxDocumentLength && trace[i].request.depth < w.maxIncludeDepth
  }

  /** The error is one that the resolver or the parser has answered. */
  ghost predicate IsForeign(w: World, e: Error) {
    || (exists r: Request, n: nat {:trigger w.resolve(r, n)} :: w.resolve(r, n) == Err(e))
    || exists bytes, d: nat {:trigger w.parse(bytes, d)} :: w.parse(bytes, d) == Err(e)
  }

  /** A refusal for sources or bytes is for a total past its limit, the source that went past it included. */
  ghost predicate Explained(w: World, s: Totals, e: Error, trace: Trace) {
    || IsForeign(w, e)
    || e == IncludeSpecNotString || e.FragmentNeedsMapping? || e.FragmentNotFound?
    || (e.RecursionLimitExceeded? && e.depth > w.maxIncludeDepth)
    || (e.IncludeCycle? && trace != [] && e.identity == Last(trace).source.name && IsWithin(w, s, trace))
    || (e.IncludeTooLong? && trace != [] && IsTooLong(w, e, Last(trace).source) && IsWithin(w, s, trace))
    || (e.Budget? && IsPast(w, s, e.breach, trace))
  }

  /** The totals are still allowed: both are tested before anything else about a source. */
  ghost predicate IsWithin(w: World, s: Totals, trace: Trace) {
    Sat(s.sources + |trace|) <= w.maxIncludeSources && Sat(s.bytes + BytesOf(trace)) <= w.maxTotalIncludeBytes
  }

  ghost predicate IsTooLong(w: World, e: Error, source: Source) {
    e == IncludeTooLong(source.name, w.maxDocumentLength) && Utf8Len(source.bytes) > w.maxDocumentLength
  }

  ghost predicate IsPast(w: World, s: Totals, b: Breach, trace: Trace) {
    match b
    case MaxIncludeSources(limit, observed) =>
      limit == w.maxIncludeSources && observed == Sat(s.sources + |trace|) && observed > limit
    case MaxIncludeBytes(limit, observed) =>
      && limit == w.maxTotalIncludeBytes && observed == Sat(s.bytes + BytesOf(trace)) && observed > limit
      && Sat(s.sources + |trace|) <= w.maxIncludeSources
    case MaxTotalScalarBytes(limit, observed) => limit == w.maxTotalScalarBytes && observed > limit
    case _ => false
  }

  /** Request `i` is made by the source given as number `j`, one level further down. */
  ghost predicate IsMadeBy(trace: Trace, nextId: nat, i: int, j: int) {
    && 0 <= j < i < |trace|
    && trace[i].request.fromId == nextId + j && trace[i].request.depth == trace[j].request.depth + 1
  }

  /** Request `i` is made by the document at hand, or by an earlier source. */
  ghost predicate HasMaker(at: Place, nextId: nat, trace: Trace, i: int) {
    && 0 <= i < |trace|
    && (Place(trace[i].request.fromId, trace[i].request.depth) == at || exists j :: IsMadeBy(trace, nextId, i, j))
  }

  ghost predicate HaveMakers(at: Place, nextId: nat, trace: Trace) {
    forall i :: 0 <= i < |trace| ==> HasMaker(at, nextId, trace, i)
  }

  /** The resolver sees the number of sources before, and what is left for the one at hand. */
  ghost predicate IsAnswered(w: World, sources: nat, bytes: nat, a: Asked) {
    && w.resolve(a.request, Sat(sources)) == Ok(a.source)
    && a.request.maxBytes == Min(SatSub(w.maxTotalIncludeBytes, Sat(bytes)), w.maxDocumentLength)
  }

  ghost predicate IsAnsweredAt(w: World, s: Totals, trace: Trace, i: int) {
    0 <= i < |trace| && IsAnswered(w, s.sources + i, s.bytes + BytesOf(trace[..i]), trace[i])
  }

  ghost predicate AreAnswered(w: World, s: Totals, trace: Trace) {
    forall i :: 0 <= i < |trace| ==> IsAnsweredAt(w, s, trace, i)
  }

  ghost predicate Balances(w: World, s: Totals, outcome: Outcome, trace: Trace) {
    match outcome case Done(s1) => Accounts(s, s1, trace) case Refused(e) => Explained(w, s, e, trace)
  }

  ghost predicate Traced(w: World, at: Place, s: Totals, outcome: Outcome, trace: Trace) {
    HaveMakers(at, s.nextId, trace) && AreAnswered(w, s, trace) && Balances(w, s, outcome, trace)
  }

  // ----- one trace after another -----

  lemma {:induction false} BytesAppend(t: Trace, u: Trace)
    ensures BytesOf(t + u) == BytesOf(t) + BytesOf(u)
    decreases |u|
  {
    if u == [] {
      assert t + u == t;
    } else {
      BytesAppend(t, Front(u));
      assert Front(t + u) == t + Front(u) && Last(t + u) == Last(u);
    }
  }

  lemma MakerBefore(at: Place, nextId: nat, t: Trace, u: Trace, i: int)
    requires HasMaker(at, nextId, t, i)
    ensures HasMaker(at, nextId, t + u, i)
  {
    if j :| IsMadeBy(t, nextId, i, j) {
      assert IsMadeBy(t + u, nextId, i, j);
    }
  }

  lemma MakerAfter(at: Place, nextId: nat, t: Trace, u: Trace, next: nat, i: int)
    requires next == nextId + |t| && HasMaker(at, next, u, i)
    ensures HasMaker(at, nextId, t + u, |t| + i)
  {
    var all := t + u;
    assert all[|t| + i] == u[i];
    if j :| IsMadeBy(u, next, i, j) {
      assert all[|t| + j] == u[j];
      assert IsMadeBy(all, nextId, |t| + i, |t| + j);
    }
  }

  lemma MakersAppend(at: Place, nextId: nat, t: Trace, u: Trace, next: nat)
    requires next == nextId + |t| && HaveMakers(at, nextId, t) && HaveMakers(at, next, u)
    ensures HaveMakers(at, nextId, t + u)
  {
    forall i | 0 <= i < |t + u| ensures HasMaker(at, nextId, t + u, i) {
      if i < |t| {
        MakerBefore(at, nextId, t, u, i);
      } else {
        MakerAfter(at, nextId, t, u, next, i - |t|);
      }
    }
  }

  /** Inside a source the makers are that source and those it leads to. */
  lemma MakerInside(at: Place, nextId: nat, a: Asked, u: Trace, next: nat, i: int)
    requires next == nextId + 1 && Place(a.request.fromId, a.request.depth) == at
    requires HasMaker(Place(nextId, at.depth + 1), next, u, i)
    ensures HasMaker(at, nextId, [a] + u, 1 + i)
  {
    var all := [a] + u;
    assert all[1 + i] == u[i];
    if j :| IsMadeBy(u, next, i, j) {
      assert all[1 + j] == u[j];
      assert IsMadeBy(all, nextId, 1 + i, 1 + j);
    } else {
      assert IsMadeBy(all, nextId, 1 + i, 0);
    }
  }

  lemma MakersInside(at: Place, nextId: nat, a: Asked, u: Trace, next: nat)
    requires next == nextId + 1 && Place(a.request.fromId, a.request.depth) == at
    requires HaveMakers(Place(nextId, at.depth + 1), next, u)
    ensures HaveMakers(at, nextId, [a] + u)
  {
    forall i | 0 <= i < |[a] + u| ensures HasMaker(at, nextId, [a] + u, i) {
      if i > 0 {
        MakerInside(at, nextId, a, u, next, i - 1);
      }
    }
  }

  lemma AnsweredBefore(w: World, s: Totals, t: Trace, u: Trace, i: int)
    requires IsAnsweredAt(w, s, t, i)
    ensures IsAnsweredAt(w, s, t + u, i)
  {
    assert (t + u)[..i] == t[..i];
  }

  lemma AnsweredAfter(w: World, s: Totals, s1: Totals, t: Trace, u: Trace, i: int)
    requires Accounts(s, s1, t) && IsAnsweredAt(w, s1, u, i)
    ensures IsAnsweredAt(w, s, t + u, |t| + i)
  {
    assert (t + u)[..|t| + i] == t + u[..i] && (t + u)[|t| + i] == u[i];
    BytesAppend(t, u[..i]);
    SameAnswer(w, s.sources + |t|, s1.sources, i, s.bytes + BytesOf(t), s1.bytes, BytesOf(u[..i]), u[i]);
  }

  /** Saturated on the way or only at the end, a total is the same. */
  lemma SameAnswer(w: World, n: nat, n1: nat, k: nat, b: nat, b1: nat, more: nat, a: Asked)
    requires n1 == Sat(n) && b1 == Sat(b) && IsAnswered(w, n1 + k, b1 + more, a)
    ensures IsAnswered(w, n + k, b + more, a)
  {
    assert Sat(n1 + k) == Sat(n + k) && Sat(b1 + more) == Sat(b + more);
  }

  lemma AnsweredAppend(w: World, s: Totals, s1: Totals, t: Trace, u: Trace)
    requires AreAnswered(w, s, t) && AreAnswered(w, s1, u) && Accounts(s, s1, t)
    ensures AreAnswered(w, s, t + u)
  {
    forall i | 0 <= i < |t + u| ensures IsAnsweredAt(w, s, t + u, i) {
      if i < |t| {
        AnsweredBefore(w, s, t, u, i);
      } else {
        AnsweredAfter(w, s, s1, t, u, i - |t|);
      }
    }
  }

  lemma BalancesLater(w: World, s: Totals, s1: Totals, outcome: Outcome, t: Trace, u: Trace)
    requires Accounts(s, s1, t) && Balances(w, s1, outcome, u)
    ensures Balances(w, s, outcome, t + u)
  {
    BytesAppend(t, u);
    if u != [] {
      assert Last(t + u) == Last(u);
    }
  }

  lemma TracedTwice(w: World, at: Place, s: Totals, s1: Totals, outcome: Outcome, t: Trace, u: Trace)
    requires Traced(w, at, s, Done(s1), t) && Traced(w, at, s1, outcome, u)
    ensures Traced(w, at, s, outcome, t + u)
  {
    MakersAppend(at, s.nextId, t, u, s1.nextId);
    AnsweredAppend(w, s, s1, t, u);
    BalancesLater(w, s, s1, outcome, t, u);
  }

  /** The sources inside a fetched one, after it. */
  lemma TracedInside(w: World, at: Place, s: Totals, s1: Totals, outcome: Outcome, first: Trace, rest: Trace)
    requires |first| == 1 && Traced(w, at, s, Done(s1), first)
    requires Traced(w, Place(s.nextId, at.depth + 1), s1, outcome, rest)
    ensures Traced(w, at, s, outcome, first + rest)
  {
    assert first == [first[0]];
    assert HasMaker(at, s.nextId, first, 0);
    MakersInside(at, s.nextId, first[0], rest, s1.nextId);
    AnsweredAppend(w, s, s1, first, rest);
    BalancesLater(w, s, s1, outcome, first, rest);
  }

  /** A fragment that is not found is a refusal of the document, not of the sources. */
  lemma TracedFragment(w: World, at: Place, s: Totals, outcome: Outcome, e: Error, trace: Trace)
    requires Traced(w, at, s, outcome, trace) && (e.FragmentNeedsMapping? || e.FragmentNotFound?)
    ensures Traced(w, at, s, Refused(e), trace)
  {
  }

  lemma NothingTraced(w: World, at: Place, s: Totals)
    requires s.sources <= USIZE_MAX && s.bytes <= USIZE_MAX
    ensures Traced(w, at, s, Done(s), []) && Traced(w, at, s, Refused(IncludeSpecNotString), [])
  {
  }

  // ----- every walk -----

  /**
    * Whatever the resolver and the parser do: the counters move by exactly the sources given, a
    * refusal is for a total past its limit, and every request names the source it is made in.
    */
  lemma {:induction false} WalkIsTraced(w: World, v: Value, at: At, s: Counters)
    ensures Traced(w, PlaceOf(at), TotalsOf(s), OutcomeOf(Walk(w, v, at, s)), TraceWalk(w, v, at, s))
    decreases Left(w, at), v, 1
  {
    if IsInclude(v) {
      if v.inner.String? {
        LoadIsTraced(w, v.inner.s, at, s.(scalarBytes := SatSub(s.scalarBytes, Utf8Len(v.inner.s))));
      } else {
        NothingTraced(w, PlaceOf(at), TotalsOf(s));
      }
    } else {
      match v
      case Tagged(_, inner) => WalkIsTraced(w, inner, at, s);
      case Sequence(items) => ItemsAreTraced(w, items, Inner(at), s);
      case Mapping(entries) => EntriesAreTraced(w, entries, Inner(at), s);
      case _ => NothingTraced(w, PlaceOf(at), TotalsOf(s));
    }
  }

  lemma {:induction false} ItemsAreTraced(w: World, items: seq<Value>, at: At, s: Counters)
    ensures Traced(w, PlaceOf(at), TotalsOf(s), OutcomeOf(WalkItems(w, items, at, s)), TraceItems(w, items, at, s))
    decreases Left(w, at), items, 0
  {
    if items == [] {
      NothingTraced(w, PlaceOf(at), TotalsOf(s));
    } else {
      ItemsAreTraced(w, Front(items), at, s);
      var before, trace := WalkItems(w, Front(items), at, s), TraceItems(w, Front(items), at, s);
      if before.Ok? {
        var s1 := before.value.1;
        WalkIsTraced(w, Last(items), at, s1);
        TracedTwice(w, PlaceOf(at), TotalsOf(s), TotalsOf(s1), OutcomeOf(Walk(w, Last(items), at, s1)),
                    trace, TraceWalk(w, Last(items), at, s1));
      } else {
        assert trace + [] == trace;
      }
    }
  }

  lemma {:induction false} EntriesAreTraced(w: World, entries: seq<Entry>, at: At, s: Counters)
    ensures Traced(
      w, PlaceOf(at), TotalsOf(s), OutcomeOf(WalkEntries(w, entries, at, s)), TraceEntries(w, entries, at, s))
    decreases Left(w, at), entries, 0
  {
    if entries == [] {
      NothingTraced(w, PlaceOf(at), TotalsOf(s));
    } else {
      EntriesAreTraced(w, Front(entries), at, s);
      var before, trace := WalkEntries(w, Front(entries), at, s), TraceEntries(w, Front(entries), at, s);
      if before.Ok? {
        var s1, last := before.value.1, Last(entries).value;
        WalkIsTraced(w, last, at, s1);
        TracedTwice(w, PlaceOf(at), TotalsOf(s), TotalsOf(s1), OutcomeOf(Walk(w, last, at, s1)),
                    trace, TraceWalk(w, last, at, s1));
      } else {
        assert trace + [] == trace;
      }
    }
  }

  function Fetched(r: Result<(Value, string, Counters), Error>): Outcome {
    match r case Ok((_, _, s)) => Done(TotalsOf(s)) case Err(e) => Refused(e)
  }

  lemma FetchIsTraced(w: World, spec: string, at: At, s: Counters)
    ensures var r, t := Fetch(w, spec, at, s), TraceFetch(w, spec, at, s);
      && Traced(w, PlaceOf(at), TotalsOf(s), Fetched(r), t)
      && (r.Ok? ==> |t| == 1)
  {
    var t := TraceFetch(w, spec, at, s);
    if t != [] {
      assert t == [t[0]] && Front(t) == [] && t[..0] == [];
      assert BytesOf(t) == Utf8Len(t[0].source.bytes);
      FetchBalances(w, spec, at, s, t);
    }
  }

  lemma FetchBalances(w: World, spec: string, at: At, s: Counters, t: Trace)
    requires t == TraceFetch(w, spec, at, s) != [] && BytesOf(t) == Utf8Len(t[0].source.bytes)
    ensures Balances(w, TotalsOf(s), Fetched(Fetch(w, spec, at, s)), t)
  {
  }

  lemma {:induction false} LoadIsTraced(w: World, spec: string, at: At, s: Counters)
    ensures Traced(w, PlaceOf(at), TotalsOf(s), OutcomeOf(Load(w, spec, at, s)), TraceLoad(w, spec, at, s))
    decreases Left(w, at), spec, 0
  {
    FetchIsTraced(w, spec, at, s);
    var fetched := Fetch(w, spec, at, s);
    if fetched.Ok? {
      var (tree, _, s1) := fetched.value;
      var nested := At(at.includeDepth + 1, s.nextId, at.treeDepth);
      WalkIsTraced(w, tree, nested, s1);
      var walked, r := Walk(w, tree, nested, s1), Load(w, spec, at, s);
      TracedInside(w, PlaceOf(at), TotalsOf(s), TotalsOf(s1), OutcomeOf(walked),
                   TraceFetch(w, spec, at, s), TraceWalk(w, tree, nested, s1));
      if walked.Ok? && r.Err? {
        TracedFragment(w, PlaceOf(at), TotalsOf(s), OutcomeOf(walked), r.error, TraceLoad(w, spec, at, s));
      }
    }
  }

  /** What a fetch brings is the parse of the one source it was answered, under the nesting left at its place. */
  lemma FetchParses(w: World, spec: string, at: At, s: Counters)
    requires Fetch(w, spec, at, s).Ok?
    ensures var t, (tree, name, s1) := TraceFetch(w, spec, at, s), Fetch(w, spec, at, s).value;
      && |t| == 1 && name == t[0].source.name && t[0].request.spec == spec
      && w.parse(t[0].source.bytes, if at.treeDepth <= w.maxDepth then w.maxDepth - at.treeDepth else 0) == Ok(tree)
      && s1.scalarBytes == Sat(s.scalarBytes + Text(tree)) <= w.maxTotalScalarBytes
  {
  }

  // ----- what a walk that succeeds was given -----

  lemma {:induction false} WalkFits(w: World, v: Value, at: At, s: Counters)
    requires Walk(w, v, at, s).Ok?
    ensures AllFit(w, TraceWalk(w, v, at, s))
    decreases Left(w, at), v, 1
  {
    if IsInclude(v) {
      LoadFits(w, v.inner.s, at, s.(scalarBytes := SatSub(s.scalarBytes, Utf8Len(v.inner.s))));
    } else {
      match v
      case Tagged(_, inner) => WalkFits(w, inner, at, s);
      case Sequence(items) => ItemsFit(w, items, Inner(at), s);
      case Mapping(entries) => EntriesFit(w, entries, Inner(at), s);
      case _ =>
    }
  }

  lemma {:induction false} ItemsFit(w: World, items: seq<Value>, at: At, s: Counters)
    requires WalkItems(w, items, at, s).Ok?
    ensures AllFit(w, TraceItems(w, items, at, s))
    decreases Left(w, at), items, 0
  {
    if items != [] {
      ItemsFit(w, Front(items), at, s);
      WalkFits(w, Last(items), at, WalkItems(w, Front(items), at, s).value.1);
    }
  }

  lemma {:induction false} EntriesFit(w: World, entries: seq<Entry>, at: At, s: Counters)
    requires WalkEntries(w, entries, at, s).Ok?
    ensures AllFit(w, TraceEntries(w, entries, at, s))
    decreases Left(w, at), entries, 0
  {
    if entries != [] {
      EntriesFit(w, Front(entries), at, s);
      WalkFits(w, Last(entries).value, at, WalkEntries(w, Front(entries), at, s).value.1);
    }
  }

  lemma {:induction false} LoadFits(w: World, spec: string, at: At, s: Counters)
    requires Load(w, spec, at, s).Ok?
    ensures AllFit(w, TraceLoad(w, spec, at, s))
    decreases Left(w, at), spec, 0
  {
    var (tree, _, s1) := Fetch(w, spec, at, s).value;
    FetchFits(w, spec, at, s);
    WalkFits(w, tree, At(at.includeDepth + 1, s.nextId, at.treeDepth), s1);
  }

  lemma FetchFits(w: World, spec: string, at: At, s: Counters)
    requires Fetch(w, spec, at, s).Ok?
    ensures AllFit(w, TraceFetch(w, spec, at, s))
  {
  }

  // ----- a whole pass -----

  function WholeTrace(w: World, value: Value): Trace {
    TraceWalk(w, value, At(0, 0, 0), Counters({}, 1, 0, 0, Sat(Text(value))))
  }

  /** The document itself, number 0, or source number `j`, counted from 1, asks for source `i`. */
  ghost predicate IsAskedBy(trace: Trace, i: int, j: int) {
    && 0 <= j <= i < |trace| && trace[i].request.fromId == j
    && trace[i].request.depth == if j == 0 then 0 else trace[j - 1].request.depth + 1
  }

  ghost predicate IsAsked(trace: Trace, i: int) { exists j :: IsAskedBy(trace, i, j) }

  /**
    * A whole pass over a document: each source is asked for by the document or by an earlier
    * source, one level below it; a pass that succeeds was given no more sources and bytes than
    * the limits allow; one that is refused for either was given more.
    */
  lemma WholeIsTraced(w: World, value: Value)
    ensures var r, trace := IncludeWalking.Whole(w, value), WholeTrace(w, value);
      && (forall i :: 0 <= i < |trace| ==> IsAsked(trace, i))
      && (r.Ok? ==>
        && Sat(|trace|) <= w.maxIncludeSources && Sat(BytesOf(trace)) <= w.maxTotalIncludeBytes
        && AllFit(w, trace))
      && (r.Err? && !IsForeign(w, r.error) && r.error.Budget? ==>
        match r.error.breach
        case MaxIncludeSources(limit, observed) => limit == w.maxIncludeSources < observed == Sat(|trace|)
        case MaxIncludeBytes(limit, observed) => limit == w.maxTotalIncludeBytes < observed == Sat(BytesOf(trace))
        case MaxTotalScalarBytes(limit, observed) => limit == w.maxTotalScalarBytes < observed
        case _ => false)
  {
    var s := Counters({}, 1, 0, 0, Sat(Text(value)));
    var trace := WholeTrace(w, value);
    WalkIsTraced(w, value, At(0, 0, 0), s);
    forall i | 0 <= i < |trace| ensures IsAsked(trace, i) {
      assert HasMaker(Place(0, 0), 1, trace, i);
      if j :| IsMadeBy(trace, 1, i, j) {
        assert IsAskedBy(trace, i, j + 1);
      } else {
        assert IsAskedBy(trace, i, 0);
      }
    }
    if IncludeWalking.Whole(w, value).Ok? {
      IncludeOutcome.WalkResolves(w, value, At(0, 0, 0), s);
      WalkFits(w, value, At(0, 0, 0), s);
    }
  }
}
