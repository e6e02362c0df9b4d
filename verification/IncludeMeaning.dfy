/** Include resolution is substitution along an acyclic chain. */
module IncludeMeaning {
  import opened Common
  import opened Errors
  import opened OwnedTree
  import opened Include
  import opened IncludeOutcome

  /**
    * Pure substitution: no counters, no limits but the fuel, and the chain of identities
    * handed down rather than kept in a shared set. Siblings never see each other, so a source
    * may be included any number of times as long as it does not include itself.
    */
  function Substitute(w: World, v: Value, chain: set<string>, fuel: nat): Result<Value, Error>
    decreases fuel, v, 1
  {
    if IsInclude(v) then
      if v.inner.String? then Expand(w, v.inner.s, chain, fuel) else Err(IncludeSpecNotString)
    else
      match v
      case Tagged(tag, inner) =>
        var inner1 :- Substitute(w, inner, chain, fuel);
        Ok(Tagged(tag, inner1))
      case Sequence(items) =>
        var items1 :- SubstituteItems(w, items, chain, fuel);
        Ok(Sequence(items1))
      case Mapping(entries) =>
        var entries1 :- SubstituteEntries(w, entries, chain, fuel);
        Ok(Mapping(entries1))
      case _ => Ok(v)
  }

  function SubstituteItems(w: World, items: seq<Value>, chain: set<string>, fuel: nat): Result<seq<Value>, Error>
    decreases fuel, items, 0
  {
    if items == [] then Ok([])
    else
      var front :- SubstituteItems(w, Front(items), chain, fuel);
      var last :- Substitute(w, Last(items), chain, fuel);
      Ok(front + [last])
  }

  function SubstituteEntries(w: World, entries: seq<Entry>, chain: set<string>, fuel: nat): Result<seq<Entry>, Error>
    decreases fuel, entries, 0
  {
    if entries == [] then Ok([])
    else
      var front :- SubstituteEntries(w, Front(entries), chain, fuel);
      var last :- Substitute(w, Last(entries).value, chain, fuel);
      Ok(front + [Entry(Last(entries).key, last)])
  }

  /** The source a spec names, however large it may be. */
  function Answer(w: World, spec: string): Result<Source, Error> { w.resolve(Request(spec, 0, 0, USIZE_MAX), 0) }

  function Expand(w: World, spec: string, chain: set<string>, fuel: nat): Result<Value, Error>
    decreases fuel, spec, 0
  {
    if fuel == 0 then Err(RecursionLimitExceeded(0))
    else
      var source :- Answer(w, spec);
      if source.name in chain then Err(IncludeCycle(source.name))
      else
        var tree :- w.parse(source.bytes, USIZE_MAX);
        var resolved :- Substitute(w, tree, chain + {source.name}, fuel - 1);
        SelectFragment(resolved, spec)
  }

  // ----- what is asked of the resolver and of the parser -----

  /** The source a spec names is larger than a request allows. */
  ghost predicate Outgrows(w: World, r: Request) {
    Answer(w, r.spec).Ok? && Utf8Len(Answer(w, r.spec).value.bytes) > r.maxBytes
  }

  /**
    * An answer within its allowance is the source the spec names, and an accepted parse is the
    * unlimited one. Of an answer past its allowance nothing is asked: the resolver may cut it
    * short, as the walk refuses it anyway.
    */
  ghost predicate Faithful(w: World) { ResolverFaithful(w) && ParserFaithful(w) }

  ghost predicate ResolverFaithful(w: World) {
    forall r: Request, n: nat {:trigger w.resolve(r, n)} ::
      w.resolve(r, n).Ok? && Utf8Len(w.resolve(r, n).value.bytes) <= r.maxBytes ==>
        w.resolve(r, n) == Answer(w, r.spec)
  }

  ghost predicate ParserFaithful(w: World) {
    forall bytes, d: nat :: d <= USIZE_MAX && w.parse(bytes, d).Ok? ==>
      w.parse(bytes, USIZE_MAX) == w.parse(bytes, d)
  }

  /** Both refuse by a limit, for a source larger than allowed, or as they would without limits. */
  ghost predicate RefusesAlike(w: World) { ResolverRefusesAlike(w) && ParserRefusesAlike(w) }

  ghost predicate ResolverRefusesAlike(w: World) {
    forall r: Request, n: nat {:trigger w.resolve(r, n)} ::
      w.resolve(r, n).Err? ==>
        w.resolve(r, n).error.IsLimit() || Outgrows(w, r) || w.resolve(r, n) == Answer(w, r.spec)
  }

  ghost predicate ParserRefusesAlike(w: World) {
    forall bytes, d: nat :: d <= USIZE_MAX && w.parse(bytes, d).Err? ==>
      w.parse(bytes, d).error.IsLimit() || w.parse(bytes, USIZE_MAX) == w.parse(bytes, d)
  }

  /** The resolver's error for a source larger than a request allowed. */
  ghost predicate CutOff(w: World, e: Error) {
    exists r: Request, n: nat {:trigger w.resolve(r, n)} :: w.resolve(r, n) == Err(e) && Outgrows(w, r)
  }

  ghost predicate Limited(w: World, s: Counters) { s.bytes <= w.maxTotalIncludeBytes < USIZE_MAX }

  /**
    * A success is substitution's, as long as the byte counter has not stuck at its top; a
    * failure is a limit's, the resolver's for a source too large, or substitution's.
    */
  ghost predicate Agrees<T>(w: World, s: Counters, r: Result<(T, Counters), Error>, m: Result<T, Error>) {
    match r
    case Ok((t, s1)) => s1.bytes < USIZE_MAX ==> m == Ok(t)
    case Err(e) => RefusesAlike(w) && Limited(w, s) ==> e.IsLimit() || CutOff(w, e) || m == Err(e)
  }

  lemma {:induction false} WalkAgrees(w: World, v: Value, at: At, s: Counters)
    requires Faithful(w)
    ensures Agrees(w, s, Walk(w, v, at, s), Substitute(w, v, s.visited, Left(w, at)))
    decreases Left(w, at), v, 1
  {
    if IsInclude(v) {
      if v.inner.String? {
        LoadAgrees(w, v.inner.s, at, s.(scalarBytes := SatSub(s.scalarBytes, Utf8Len(v.inner.s))));
      }
    } else {
      match v
      case Tagged(_, inner) => WalkAgrees(w, inner, at, s);
      case Sequence(items) => ItemsAgree(w, items, Inner(at), s);
      case Mapping(entries) => EntriesAgree(w, entries, Inner(at), s);
      case _ =>
    }
  }

  lemma {:induction false} ItemsAgree(w: World, items: seq<Value>, at: At, s: Counters)
    requires Faithful(w)
    ensures Agrees(w, s, WalkItems(w, items, at, s), SubstituteItems(w, items, s.visited, Left(w, at)))
    decreases Left(w, at), items, 0
  {
    if items != [] {
      ItemsAgree(w, Front(items), at, s);
      var before := WalkItems(w, Front(items), at, s);
      if before.Ok? {
        var s1 := before.value.1;
        ItemsResolve(w, Front(items), at, s);
        WalkAgrees(w, Last(items), at, s1);
        if Walk(w, Last(items), at, s1).Ok? {
          WalkResolves(w, Last(items), at, s1);
        }
      }
    }
  }

  lemma {:induction false} EntriesAgree(w: World, entries: seq<Entry>, at: At, s: Counters)
    requires Faithful(w)
    ensures Agrees(w, s, WalkEntries(w, entries, at, s), SubstituteEntries(w, entries, s.visited, Left(w, at)))
    decreases Left(w, at), entries, 0
  {
    if entries != [] {
      EntriesAgree(w, Front(entries), at, s);
      var before := WalkEntries(w, Front(entries), at, s);
      if before.Ok? {
        var s1 := before.value.1;
        EntriesResolve(w, Front(entries), at, s);
        WalkAgrees(w, Last(entries).value, at, s1);
        if Walk(w, Last(entries).value, at, s1).Ok? {
          WalkResolves(w, Last(entries).value, at, s1);
        }
      }
    }
  }

  /** The request a load makes. */
  function Asked(w: World, spec: string, at: At, s: Counters): Request {
    Request(spec, at.fromId, at.includeDepth, Min(SatSub(w.maxTotalIncludeBytes, s.bytes), w.maxDocumentLength))
  }

  /** An answer past its allowance is never charged, unless the byte counter sticks at its top. */
  lemma ChargedIsAllowed(w: World, spec: string, at: At, s: Counters, source: Source)
    requires Charge(w, s, source).Ok?
    requires Charge(w, s, source).value.bytes < USIZE_MAX || Limited(w, s)
    ensures Utf8Len(source.bytes) <= Asked(w, spec, at, s).maxBytes
    ensures s.bytes <= Charge(w, s, source).value.bytes <= w.maxTotalIncludeBytes
  {
  }

  /** What a fetch that succeeds has found, against the source the spec names. */
  lemma FetchedIsAnswer(w: World, spec: string, at: At, s: Counters)
    requires Faithful(w) && Fetch(w, spec, at, s).Ok?
    requires Fetch(w, spec, at, s).value.2.bytes < USIZE_MAX || Limited(w, s)
    ensures var (tree, name, s1) := Fetch(w, spec, at, s).value;
      && Left(w, at) > 0 && Answer(w, spec).Ok? && Answer(w, spec).value.name == name
      && name !in s.visited && s1.visited == s.visited + {name}
      && s.bytes <= s1.bytes <= w.maxTotalIncludeBytes
      && w.parse(Answer(w, spec).value.bytes, USIZE_MAX) == Ok(tree)
  {
    var r := Asked(w, spec, at, s);
    var source := w.resolve(r, s.sources).value;
    ChargedIsAllowed(w, spec, at, s, source);
    assert w.resolve(r, s.sources) == Answer(w, spec);
    var depth := SatSub(w.maxDepth, at.treeDepth);
    assert depth <= USIZE_MAX;
    assert w.parse(source.bytes, depth).Ok?;
  }

  /** A fetch that fails by no limit fails as the substitution does, or because the source is too large. */
  lemma FetchRefusesAlike(w: World, spec: string, at: At, s: Counters)
    requires Faithful(w) && RefusesAlike(w) && Limited(w, s) && Fetch(w, spec, at, s).Err?
    ensures var e := Fetch(w, spec, at, s).error;
      e.IsLimit() || CutOff(w, e) || Expand(w, spec, s.visited, Left(w, at)) == Err(e)
  {
    var r := Asked(w, spec, at, s);
    var answer := w.resolve(r, s.sources);
    if answer.Ok? && Charge(w, s, answer.value).Ok? {
      ChargedIsAllowed(w, spec, at, s, answer.value);
      assert answer == Answer(w, spec);
      var depth := SatSub(w.maxDepth, at.treeDepth);
      assert depth <= USIZE_MAX;
      var parsed := w.parse(answer.value.bytes, depth);
    }
  }

  /** The walk of what a fetch found, and that it only adds to the bytes. */
  lemma {:induction false} FetchedWalkAgrees(w: World, tree: Value, at: At, s: Counters)
    requires Faithful(w)
    ensures var r := Walk(w, tree, at, s);
      && Agrees(w, s, r, Substitute(w, tree, s.visited, Left(w, at)))
      && (r.Ok? ==> s.bytes <= r.value.1.bytes && (Limited(w, s) ==> r.value.1.bytes < USIZE_MAX))
    decreases Left(w, at), tree, 2
  {
    WalkAgrees(w, tree, at, s);
    if Walk(w, tree, at, s).Ok? {
      WalkResolves(w, tree, at, s);
    }
  }

  /** The fragment of a resolved source, or what kept it from being resolved. */
  ghost function Selected(r: Result<Value, Error>, spec: string): Result<Value, Error> {
    if r.Err? then r else SelectFragment(r.value, spec)
  }

  ghost function SelectedFrom(r: Result<(Value, Counters), Error>, spec: string, name: string):
    Result<(Value, Counters), Error>
  {
    if r.Err? then r
    else
      var selected, s := SelectFragment(r.value.0, spec), r.value.1;
      if selected.Err? then Err(selected.error) else Ok((selected.value, s.(visited := s.visited - {name})))
  }

  lemma LoadIsSelected(w: World, spec: string, at: At, s: Counters, tree: Value, name: string, s1: Counters)
    requires Fetch(w, spec, at, s) == Ok((tree, name, s1))
    ensures Load(w, spec, at, s)
      == SelectedFrom(Walk(w, tree, At(at.includeDepth + 1, s.nextId, at.treeDepth), s1), spec, name)
  {
  }

  lemma ExpandIsSelected(w: World, spec: string, chain: set<string>, fuel: nat, source: Source, tree: Value)
    requires fuel > 0 && Answer(w, spec) == Ok(source) && source.name !in chain
    requires w.parse(source.bytes, USIZE_MAX) == Ok(tree)
    ensures Expand(w, spec, chain, fuel) == Selected(Substitute(w, tree, chain + {source.name}, fuel - 1), spec)
  {
  }

  /** Selecting from both sides alike. */
  lemma SelectedAgree(
      w: World, spec: string, name: string, s: Counters, s1: Counters, walked: Result<(Value, Counters), Error>,
      meant: Result<Value, Error>, loaded: Result<(Value, Counters), Error>, expanded: Result<Value, Error>)
    requires Agrees(w, s1, walked, meant) && loaded == SelectedFrom(walked, spec, name)
    requires s1.bytes < USIZE_MAX || Limited(w, s) ==>
      expanded == Selected(meant, spec) && (Limited(w, s) ==> Limited(w, s1))
    requires walked.Ok? ==>
      s1.bytes <= walked.value.1.bytes && (Limited(w, s1) ==> walked.value.1.bytes < USIZE_MAX)
    ensures Agrees(w, s, loaded, expanded)
  {
  }

  lemma {:induction false} LoadAgrees(w: World, spec: string, at: At, s: Counters)
    requires Faithful(w)
    ensures Agrees(w, s, Load(w, spec, at, s), Expand(w, spec, s.visited, Left(w, at)))
    decreases Left(w, at), spec, 0
  {
    var fetched, expanded := Fetch(w, spec, at, s), Expand(w, spec, s.visited, Left(w, at));
    if fetched.Ok? {
      var (tree, name, s1) := fetched.value;
      var nested := At(at.includeDepth + 1, s.nextId, at.treeDepth);
      FetchedWalkAgrees(w, tree, nested, s1);
      LoadIsSelected(w, spec, at, s, tree, name, s1);
      var meant := Substitute(w, tree, s1.visited, Left(w, nested));
      if s1.bytes < USIZE_MAX || Limited(w, s) {
        FetchedIsAnswer(w, spec, at, s);
        ExpandIsSelected(w, spec, s.visited, Left(w, at), Answer(w, spec).value, tree);
      }
      SelectedAgree(
        w, spec, name, s, s1, Walk(w, tree, nested, s1), meant, Load(w, spec, at, s), expanded);
    } else if RefusesAlike(w) && Limited(w, s) {
      FetchRefusesAlike(w, spec, at, s);
    }
  }

  /**
    * A walk that succeeds gives the substituted tree, whatever the errors of the resolver and
    * whatever it does past its allowance.
    */
  lemma SuccessIsSubstitution(w: World, v: Value, at: At, s: Counters)
    requires Faithful(w) && Walk(w, v, at, s).Ok? && Walk(w, v, at, s).value.1.bytes < USIZE_MAX
    ensures Substitute(w, v, s.visited, Left(w, at)) == Ok(Walk(w, v, at, s).value.0)
  {
    WalkAgrees(w, v, at, s);
  }

  /**
    * The walk refines substitution: from any position, on a chain of visited identities, it
    * gives the substituted tree or its fault (a cycle among them), unless a limit refuses or
    * the resolver does for a source larger than its allowance.
    */
  lemma WalkSubstitutes(w: World, v: Value, at: At, s: Counters)
    requires Faithful(w) && RefusesAlike(w) && Limited(w, s)
    ensures var r, m := Walk(w, v, at, s), Substitute(w, v, s.visited, Left(w, at));
      if r.Ok? then m == Ok(r.value.0) else r.error.IsLimit() || CutOff(w, r.error) || m == Err(r.error)
  {
    WalkAgrees(w, v, at, s);
    if Walk(w, v, at, s).Ok? {
      WalkResolves(w, v, at, s);
    }
  }

  // ----- more fuel never changes a substitution that succeeded -----

  lemma {:induction false} MoreFuel(w: World, v: Value, chain: set<string>, fuel: nat, more: nat)
    requires fuel <= more && Substitute(w, v, chain, fuel).Ok?
    ensures Substitute(w, v, chain, more) == Substitute(w, v, chain, fuel)
    decreases fuel, v, 1
  {
    if IsInclude(v) {
      ExpandMoreFuel(w, v.inner.s, chain, fuel, more);
    } else {
      match v
      case Tagged(_, inner) => MoreFuel(w, inner, chain, fuel, more);
      case Sequence(items) => ItemsMoreFuel(w, items, chain, fuel, more);
      case Mapping(entries) => EntriesMoreFuel(w, entries, chain, fuel, more);
      case _ =>
    }
  }

  lemma {:induction false} ItemsMoreFuel(w: World, items: seq<Value>, chain: set<string>, fuel: nat, more: nat)
    requires fuel <= more && SubstituteItems(w, items, chain, fuel).Ok?
    ensures SubstituteItems(w, items, chain, more) == SubstituteItems(w, items, chain, fuel)
    decreases fuel, items, 0
  {
    if items != [] {
      ItemsMoreFuel(w, Front(items), chain, fuel, more);
      MoreFuel(w, Last(items), chain, fuel, more);
    }
  }

  lemma {:induction false} EntriesMoreFuel(w: World, entries: seq<Entry>, chain: set<string>, fuel: nat, more: nat)
    requires fuel <= more && SubstituteEntries(w, entries, chain, fuel).Ok?
    ensures SubstituteEntries(w, entries, chain, more) == SubstituteEntries(w, entries, chain, fuel)
    decreases fuel, entries, 0
  {
    if entries != [] {
      EntriesMoreFuel(w, Front(entries), chain, fuel, more);
      MoreFuel(w, Last(entries).value, chain, fuel, more);
    }
  }

  lemma {:induction false} ExpandMoreFuel(w: World, spec: string, chain: set<string>, fuel: nat, more: nat)
    requires fuel <= more && Expand(w, spec, chain, fuel).Ok?
    ensures Expand(w, spec, chain, more) == Expand(w, spec, chain, fuel)
    decreases fuel, spec, 0
  {
    var source := Answer(w, spec).value;
    MoreFuel(w, w.parse(source.bytes, USIZE_MAX).value, chain + {source.name}, fuel - 1, more - 1);
  }
}
