/** The chain of sources being resolved, for any resolver whatever. */
module IncludeChain {
  import opened Common
  import opened Errors
  import opened OwnedTree
  import opened Include

  // ----- the walk with its chain handed down -----

  /** The other counters; nothing in them is a chain. */
  ghost predicate Chainless(s: Counters) { s.visited == {} }

  /** A fetch from inside the sources of `chain`: refused as a cycle exactly when its source is one of them. */
  function FetchOn(
      w: World, spec: string, at: At, chain: set<string>, s: Counters): Result<(Value, string, Counters), Error>
  {
    if at.includeDepth + 1 > w.maxIncludeDepth then Err(RecursionLimitExceeded(at.includeDepth + 1))
    else
      var remaining := SatSub(w.maxTotalIncludeBytes, s.bytes);
      var request := Request(spec, at.fromId, at.includeDepth, Min(remaining, w.maxDocumentLength));
      var source :- w.resolve(request, s.sources);
      var s1 :- Charge(w, s, source);
      if source.name in chain then Err(IncludeCycle(source.name))
      else
        var included :- w.parse(source.bytes, SatSub(w.maxDepth, at.treeDepth));
        var s2 := s1.(nextId := s1.nextId + 1, scalarBytes := SatAdd(s1.scalarBytes, Sat(Text(included))));
        if s2.scalarBytes > w.maxTotalScalarBytes then
          Err(Budget(MaxTotalScalarBytes(w.maxTotalScalarBytes, s2.scalarBytes)))
        else Ok((included, source.name, s2))
  }

  function WalkOn(w: World, v: Value, at: At, chain: set<string>, s: Counters): Result<(Value, Counters), Error>
    decreases Left(w, at), v, 1
  {
    if IsInclude(v) then
      if v.inner.String? then
        LoadOn(w, v.inner.s, at, chain, s.(scalarBytes := SatSub(s.scalarBytes, Utf8Len(v.inner.s))))
      else Err(IncludeSpecNotString)
    else
      match v
      case Tagged(tag, inner) =>
        var (inner1, s1) :- WalkOn(w, inner, at, chain, s);
        Ok((Tagged(tag, inner1), s1))
      case Sequence(items) =>
        var (items1, s1) :- WalkItemsOn(w, items, Inner(at), chain, s);
        Ok((Sequence(items1), s1))
      case Mapping(entries) =>
        var (entries1, s1) :- WalkEntriesOn(w, entries, Inner(at), chain, s);
        Ok((Mapping(entries1), s1))
      case _ => Ok((v, s))
  }

  function WalkItemsOn(w: World, items: seq<Value>, at: At, chain: set<string>, s: Counters):
    Result<(seq<Value>, Counters), Error>
    decreases Left(w, at), items, 0
  {
    if items == [] then Ok(([], s))
    else
      var (front, s1) :- WalkItemsOn(w, Front(items), at, chain, s);
      var (last, s2) :- WalkOn(w, Last(items), at, chain, s1);
      Ok((front + [last], s2))
  }

  function WalkEntriesOn(w: World, entries: seq<Entry>, at: At, chain: set<string>, s: Counters):
    Result<(seq<Entry>, Counters), Error>
    decreases Left(w, at), entries, 0
  {
    if entries == [] then Ok(([], s))
    else
      var (front, s1) :- WalkEntriesOn(w, Front(entries), at, chain, s);
      var (last, s2) :- WalkOn(w, Last(entries).value, at, chain, s1);
      Ok((front + [Entry(Last(entries).key, last)], s2))
  }

  /** The included tree is walked inside one source more; its siblings are not. */
  function LoadOn(w: World, spec: string, at: At, chain: set<string>, s: Counters): Result<(Value, Counters), Error>
    decreases Left(w, at), spec, 0
  {
    var (included, identity, s1) :- FetchOn(w, spec, at, chain, s);
    var (resolved, s2) :- WalkOn(w, included, At(at.includeDepth + 1, s.nextId, at.treeDepth), chain + {identity}, s1);
    var result :- SelectFragment(resolved, spec);
    Ok((result, s2))
  }

  // ----- the shared set is that chain, at every point of every walk -----

  function Bare(s: Counters): Counters { s.(visited := {}) }

  /** The outcome with the counters of a walk that keeps `chain` in its shared set. */
  function Keeping<T>(r: Result<(T, Counters), Error>, chain: set<string>): Result<(T, Counters), Error> {
    var (t, s) :- r;
    Ok((t, s.(visited := chain)))
  }

  function KeepingFetched(r: Result<(Value, string, Counters), Error>, chain: set<string>):
    Result<(Value, string, Counters), Error>
  {
    var (tree, name, s) :- r;
    Ok((tree, name, s.(visited := chain + {name})))
  }

  lemma FetchIsOnChain(w: World, spec: string, at: At, s: Counters)
    ensures Fetch(w, spec, at, s) == KeepingFetched(FetchOn(w, spec, at, s.visited, Bare(s)), s.visited)
    ensures var r := FetchOn(w, spec, at, s.visited, Bare(s)); r.Ok? ==> r.value.1 !in s.visited && Chainless(r.value.2)
  {
  }

  /** For every resolver: tree, counters and errors are those of the walk that is handed its chain. */
  lemma {:induction false} WalkIsOnChain(w: World, v: Value, at: At, s: Counters)
    ensures Walk(w, v, at, s) == Keeping(WalkOn(w, v, at, s.visited, Bare(s)), s.visited)
    ensures var r := WalkOn(w, v, at, s.visited, Bare(s)); r.Ok? ==> Chainless(r.value.1)
    decreases Left(w, at), v, 1
  {
    if IsInclude(v) {
      if v.inner.String? {
        LoadIsOnChain(w, v.inner.s, at, s.(scalarBytes := SatSub(s.scalarBytes, Utf8Len(v.inner.s))));
      }
    } else {
      match v
      case Tagged(_, inner) => WalkIsOnChain(w, inner, at, s);
      case Sequence(items) => ItemsAreOnChain(w, items, Inner(at), s);
      case Mapping(entries) => EntriesAreOnChain(w, entries, Inner(at), s);
      case _ =>
    }
  }

  lemma {:induction false} ItemsAreOnChain(w: World, items: seq<Value>, at: At, s: Counters)
    ensures WalkItems(w, items, at, s) == Keeping(WalkItemsOn(w, items, at, s.visited, Bare(s)), s.visited)
    ensures var r := WalkItemsOn(w, items, at, s.visited, Bare(s)); r.Ok? ==> Chainless(r.value.1)
    decreases Left(w, at), items, 0
  {
    if items != [] {
      ItemsAreOnChain(w, Front(items), at, s);
      var before := WalkItems(w, Front(items), at, s);
      if before.Ok? {
        WalkIsOnChain(w, Last(items), at, before.value.1);
      }
    }
  }

  lemma {:induction false} EntriesAreOnChain(w: World, entries: seq<Entry>, at: At, s: Counters)
    ensures WalkEntries(w, entries, at, s) == Keeping(WalkEntriesOn(w, entries, at, s.visited, Bare(s)), s.visited)
    ensures var r := WalkEntriesOn(w, entries, at, s.visited, Bare(s)); r.Ok? ==> Chainless(r.value.1)
    decreases Left(w, at), entries, 0
  {
    if entries != [] {
      EntriesAreOnChain(w, Front(entries), at, s);
      var before := WalkEntries(w, Front(entries), at, s);
      if before.Ok? {
        WalkIsOnChain(w, Last(entries).value, at, before.value.1);
      }
    }
  }

  lemma {:induction false} LoadIsOnChain(w: World, spec: string, at: At, s: Counters)
    ensures Load(w, spec, at, s) == Keeping(LoadOn(w, spec, at, s.visited, Bare(s)), s.visited)
    ensures var r := LoadOn(w, spec, at, s.visited, Bare(s)); r.Ok? ==> Chainless(r.value.1)
    decreases Left(w, at), spec, 0
  {
    FetchIsOnChain(w, spec, at, s);
    var fetched := Fetch(w, spec, at, s);
    if fetched.Ok? {
      var (included, identity, s1) := fetched.value;
      WalkIsOnChain(w, included, At(at.includeDepth + 1, s.nextId, at.treeDepth), s1);
      assert s.visited + {identity} - {identity} == s.visited;
    }
  }
}
