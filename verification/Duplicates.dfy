/** What a mapping's entries come to under each duplicate-key policy. */
module Duplicates {
  import opened Common
  import opened Errors
  import opened Events
  import opened Metering
  import opened Tree
  import opened Machine
  import opened Syntax
  import opened Evaluation
  import opened Meaning

  // ----- the entries as written, nothing inserted yet -----

  /** The entries the pairs stand for, in order, up to the first fault, and what is threaded past them. */
  datatype Listing<C> = Listing(entries: seq<Entry>, ctx: C, fault: Option<Error>)

  /** Keys and values read in order, with no limit and no policy on duplicates. */
  function Listed(rules: Rules, pairs: seq<Pair>, env: Env): Listing<Env> {
    if pairs == [] then Listing([], env, None)
    else
      var l := Listed(rules, Front(pairs), env);
      if l.fault.Some? then l else ListedNext(l, ReadPair(rules, Last(pairs), l.ctx))
  }

  /** The key and the value of one pair. */
  function ReadPair(rules: Rules, pair: Pair, env: Env): Result<(Entry, Env), Error> {
    var key :- DenoteKey(rules, pair.key, env);
    var (v, env1) :- Denote(rules, pair.value, env);
    Ok((Entry(key, v), env1))
  }

  function ListedNext<C>(l: Listing<C>, r: Result<(Entry, C), Error>): Listing<C> {
    match r
    case Ok((e, ctx)) => Listing(l.entries + [e], ctx, None)
    case Err(fault) => l.(fault := Some(fault))
  }

  /** The same under limits, charged to the meter. */
  function Metered(c: Config, pairs: seq<Pair>, depth: nat, ctx: Ctx): Listing<Ctx> {
    if pairs == [] then Listing([], ctx, None)
    else
      var l := Metered(c, Front(pairs), depth, ctx);
      if l.fault.Some? then l else ListedNext(l, MeterPair(c, Last(pairs), depth, l.ctx))
  }

  function MeterPair(c: Config, pair: Pair, depth: nat, ctx: Ctx): Result<(Entry, Ctx), Error> {
    var (key, ctx1) :- EvalKey(c, pair.key, depth, ctx);
    var (v, ctx2) :- Eval(c, pair.value, depth, ctx1);
    Ok((Entry(key, v), ctx2))
  }

  /** Each entry is its own pair, read with what the pairs before it left. */
  lemma {:induction false} ListedAt(rules: Rules, pairs: seq<Pair>, env: Env, i: nat)
    requires i < |Listed(rules, pairs, env).entries|
    ensures var l := Listed(rules, pairs, env); |l.entries| <= |pairs|
    ensures var l, before := Listed(rules, pairs, env), Listed(rules, pairs[..i], env);
      && before.fault.None? && before.entries == l.entries[..i]
      && DenoteKey(rules, pairs[i].key, before.ctx) == Ok(l.entries[i].key)
      && Denote(rules, pairs[i].value, before.ctx).Ok?
      && Denote(rules, pairs[i].value, before.ctx).value.0 == l.entries[i].value
    decreases |pairs|
  {
    var front := Listed(rules, Front(pairs), env);
    if i < |front.entries| {
      ListedAt(rules, Front(pairs), env, i);
      assert Front(pairs)[..i] == pairs[..i];
    } else {
      ListedIsAll(rules, Front(pairs), env);
      assert Front(pairs) == pairs[..i];
    }
  }

  lemma {:induction false} ListedIsAll(rules: Rules, pairs: seq<Pair>, env: Env)
    ensures var l := Listed(rules, pairs, env); |l.entries| <= |pairs| && (l.fault.None? ==> |l.entries| == |pairs|)
    decreases |pairs|
  {
    if pairs != [] {
      ListedIsAll(rules, Front(pairs), env);
    }
  }

  /** Limits aside, the metered entries are the listed ones. */
  lemma {:induction false} MeteredIsListed(c: Config, pairs: seq<Pair>, depth: nat, ctx: Ctx)
    requires Metered(c, pairs, depth, ctx).fault.None?
    ensures var l := Metered(c, pairs, depth, ctx);
      Listed(c.rules, pairs, Values(ctx)) == Listing(l.entries, Values(l.ctx), None)
    decreases |pairs|
  {
    if pairs != [] {
      MeteredIsListed(c, Front(pairs), depth, ctx);
      PairIsRead(c, Last(pairs), depth, Metered(c, Front(pairs), depth, ctx).ctx);
    }
  }

  lemma PairIsRead(c: Config, pair: Pair, depth: nat, ctx: Ctx)
    requires MeterPair(c, pair, depth, ctx).Ok?
    ensures var (e, ctx1) := MeterPair(c, pair, depth, ctx).value;
      ReadPair(c.rules, pair, Values(ctx)) == Ok((e, Values(ctx1)))
  {
    KeyAgrees(c, pair.key, depth, ctx);
    LimitsOnlyRefuse(c, pair.value, depth, EvalKey(c, pair.key, depth, ctx).value.1);
  }

  // ----- a mapping is its written entries, inserted one by one -----

  function PlaceAll(rules: Rules, written: seq<Entry>): Result<seq<Entry>, Error> {
    if written == [] then Ok([])
    else
      var es :- PlaceAll(rules, Front(written));
      PlaceEntry(rules, es, Last(written).key, Last(written).value)
  }

  function InsertAll(c: Config, written: seq<Entry>): Result<seq<Entry>, Error> {
    if written == [] then Ok([])
    else
      var es :- InsertAll(c, Front(written));
      InsertEntry(c, es, Last(written).key, Last(written).value)
  }

  /** The outcome of a mapping: an entry refused, then a fault in a pair, then the entries. */
  function Settled<C>(r: Result<seq<Entry>, Error>, l: Listing<C>): Result<(seq<Entry>, C), Error> {
    var es :- r;
    if l.fault.Some? then Err(l.fault.value) else Ok((es, l.ctx))
  }

  /** One more pair on what the pairs before it came to. */
  function OnePlaced(
      rules: Rules, before: Result<(seq<Entry>, Env), Error>, r: Result<(Entry, Env), Error>):
    Result<(seq<Entry>, Env), Error>
  {
    var (es, _) :- before;
    var (e, env) :- r;
    var grown :- PlaceEntry(rules, es, e.key, e.value);
    Ok((grown, env))
  }

  function OneInserted(
      c: Config, before: Result<(seq<Entry>, Ctx), Error>, r: Result<(Entry, Ctx), Error>):
    Result<(seq<Entry>, Ctx), Error>
  {
    var (es, _) :- before;
    var (e, ctx) :- r;
    var grown :- InsertEntry(c, es, e.key, e.value);
    Ok((grown, ctx))
  }

  lemma PairIsOnePlaced(rules: Rules, pair: Pair, es: seq<Entry>, env: Env)
    ensures DenotePair(rules, pair, es, env) == OnePlaced(rules, Ok((es, env)), ReadPair(rules, pair, env))
  {
  }

  lemma PairIsOneInserted(c: Config, pair: Pair, es: seq<Entry>, depth: nat, ctx: Ctx)
    ensures EvalPair(c, pair, es, depth, ctx) == OneInserted(c, Ok((es, ctx)), MeterPair(c, pair, depth, ctx))
  {
  }

  /** The limit-free reading of the pairs, faults and their order included. */
  lemma {:induction false} PairsArePlaced(rules: Rules, pairs: seq<Pair>, env: Env)
    ensures var l := Listed(rules, pairs, env); DenotePairs(rules, pairs, env) == Settled(PlaceAll(rules, l.entries), l)
    decreases |pairs|
  {
    if pairs != [] {
      PairsArePlaced(rules, Front(pairs), env);
      var l := Listed(rules, Front(pairs), env);
      if l.fault.None? {
        var next := Listed(rules, pairs, env).entries;
        assert next != l.entries ==> next != [] && Front(next) == l.entries;
        var before := DenotePairs(rules, Front(pairs), env);
        if before.Ok? {
          PairIsOnePlaced(rules, Last(pairs), before.value.0, before.value.1);
        }
      }
    }
  }

  /** The metered reading of the pairs, likewise. */
  lemma {:induction false} PairsAreInserted(c: Config, pairs: seq<Pair>, depth: nat, ctx: Ctx)
    ensures var l := Metered(c, pairs, depth, ctx);
      EvalPairs(c, pairs, depth, ctx) == Settled(InsertAll(c, l.entries), l)
    decreases |pairs|
  {
    if pairs != [] {
      PairsAreInserted(c, Front(pairs), depth, ctx);
      var l := Metered(c, Front(pairs), depth, ctx);
      if l.fault.None? {
        var next := Metered(c, pairs, depth, ctx).entries;
        assert next != l.entries ==> next != [] && Front(next) == l.entries;
        var before := EvalPairs(c, Front(pairs), depth, ctx);
        if before.Ok? {
          PairIsOneInserted(c, Last(pairs), before.value.0, depth, before.value.1);
        }
      }
    }
  }

  // ----- what the policies keep -----

  function Keys(es: seq<Entry>): seq<string> {
    seq(|es|, i requires 0 <= i < |es| => es[i].key)
  }

  /** The distinct keys in the order of their first occurrence. */
  function FirstOccurrences(keys: seq<string>): seq<string> {
    if keys == [] then []
    else if Last(keys) in Front(keys) then FirstOccurrences(Front(keys))
    else FirstOccurrences(Front(keys)) + [Last(keys)]
  }

  /** The first key that repeats an earlier one. */
  function Repeated(written: seq<Entry>): Option<string> {
    if written == [] then None
    else
      var before := Repeated(Front(written));
      if before.None? && Last(written).key in Keys(Front(written)) then Some(Last(written).key) else before
  }

  /** Among the written entries with its key, `i` is the one the policy keeps. */
  ghost predicate Kept(policy: DuplicateKeyPolicy, written: seq<Entry>, i: int) {
    && 0 <= i < |written|
    && forall j :: 0 <= j < |written| && written[j].key == written[i].key ==>
      match policy
      case First => i <= j
      case LastWins => j <= i
      case Refuse => i == j
  }

  /** Every entry is a kept one. */
  ghost predicate AllKept(policy: DuplicateKeyPolicy, written: seq<Entry>, es: seq<Entry>) {
    forall j :: 0 <= j < |es| ==> IsKept(policy, written, es[j])
  }

  ghost predicate IsKept(policy: DuplicateKeyPolicy, written: seq<Entry>, e: Entry) {
    exists i :: Kept(policy, written, i) && written[i] == e
  }

  /** `es` has the written keys, each once and in first-occurrence order, with the value its policy keeps. */
  ghost predicate Resolves(policy: DuplicateKeyPolicy, written: seq<Entry>, es: seq<Entry>) {
    && Keys(es) == FirstOccurrences(Keys(written))
    && AllKept(policy, written, es)
    && DistinctKeys(es)
  }

  lemma {:induction false} FirstOccurrencesMembers(keys: seq<string>, k: string)
    ensures k in FirstOccurrences(keys) <==> k in keys
    decreases |keys|
  {
    if keys != [] {
      FirstOccurrencesMembers(Front(keys), k);
      assert keys == Front(keys) + [Last(keys)];
    }
  }

  /** At `j` the key comes again, and none did before. */
  ghost predicate RepeatsFirst(written: seq<Entry>, j: int, key: string) {
    0 <= j < |written| && written[j].key == key && key in Keys(written[..j]) && DistinctKeys(written[..j])
  }

  lemma {:induction false} RepeatedIsExact(written: seq<Entry>)
    ensures Repeated(written).None? <==> DistinctKeys(written)
    ensures Repeated(written).Some? ==> exists j :: RepeatsFirst(written, j, Repeated(written).value)
    decreases |written|
  {
    if written != [] {
      var front, n := Front(written), |written| - 1;
      RepeatedIsExact(front);
      assert written == front + [Last(written)] && front == written[..n];
      if Repeated(front).Some? {
        var j :| RepeatsFirst(front, j, Repeated(front).value);
        assert written[..j] == front[..j];
        assert RepeatsFirst(written, j, Repeated(front).value);
      } else if Last(written).key in Keys(front) {
        assert RepeatsFirst(written, n, Last(written).key);
      } else {
        NewKeyStaysDistinct(front, Last(written));
      }
    }
  }

  lemma NewKeyStaysDistinct(front: seq<Entry>, e: Entry)
    requires DistinctKeys(front) && e.key !in Keys(front)
    ensures DistinctKeys(front + [e])
  {
    assert forall i :: 0 <= i < |front| ==> Keys(front)[i] == front[i].key;
  }

  lemma KeysOfPut(es: seq<Entry>, key: string, v: Value)
    ensures Keys(Put(es, key, v)) == if key in Keys(es) then Keys(es) else Keys(es) + [key]
    ensures HasKey(es, key) <==> key in Keys(es)
  {
    var i := IndexOf(es, key);
    if i < |es| {
      assert Keys(es)[i] == key;
    }
  }

  lemma Extended(policy: DuplicateKeyPolicy, written: seq<Entry>, i: int)
    requires written != [] && Kept(policy, Front(written), i)
    requires policy == First || Last(written).key != written[i].key
    ensures Kept(policy, written, i)
  {
  }

  /** The last written entry is kept unless a first-wins or refusing policy already has its key. */
  lemma NewestKept(policy: DuplicateKeyPolicy, written: seq<Entry>)
    requires written != [] && (policy == LastWins || Last(written).key !in Keys(Front(written)))
    ensures Kept(policy, written, |written| - 1)
  {
    assert forall j :: 0 <= j < |written| - 1 ==> Keys(Front(written))[j] == written[j].key;
  }

  /** What is kept so far stays kept, if the new key is another. */
  lemma OldStaysKept(policy: DuplicateKeyPolicy, written: seq<Entry>, e: Entry)
    requires written != [] && IsKept(policy, Front(written), e)
    requires policy == First || Last(written).key != e.key
    ensures IsKept(policy, written, e)
  {
    var i :| Kept(policy, Front(written), i) && Front(written)[i] == e;
    Extended(policy, written, i);
    assert written[i] == e;
  }

  /** A repeated key changes nothing under the first-wins policy. */
  lemma IgnoredKeeps(written: seq<Entry>, es: seq<Entry>)
    requires written != [] && AllKept(First, Front(written), es)
    ensures AllKept(First, written, es)
  {
    forall j | 0 <= j < |es| ensures IsKept(First, written, es[j]) {
      assert IsKept(First, Front(written), es[j]);
      OldStaysKept(First, written, es[j]);
    }
  }

  /** Otherwise the new entry is put in, over the old one with its key. */
  lemma PutKeeps(policy: DuplicateKeyPolicy, written: seq<Entry>, before: seq<Entry>)
    requires written != [] && AllKept(policy, Front(written), before) && DistinctKeys(before)
    requires policy == LastWins || Last(written).key !in Keys(Front(written))
    ensures AllKept(policy, written, Put(before, Last(written).key, Last(written).value))
  {
    var last := Last(written);
    var es, i := Put(before, last.key, last.value), IndexOf(before, last.key);
    forall j | 0 <= j < |es| ensures IsKept(policy, written, es[j]) {
      if j == i {
        NewestKept(policy, written);
        assert written[|written| - 1] == es[j];
      } else {
        assert IsKept(policy, Front(written), before[j]);
        assert before[j].key != last.key;
        OldStaysKept(policy, written, before[j]);
      }
    }
  }

  lemma KeysOfPlaced(rules: Rules, es: seq<Entry>, e: Entry)
    requires PlaceEntry(rules, es, e.key, e.value).Ok?
    ensures Keys(PlaceEntry(rules, es, e.key, e.value).value) ==
      if e.key in Keys(es) then Keys(es) else Keys(es) + [e.key]
  {
    KeysOfPut(es, e.key, e.value);
  }

  lemma OccurrencesOfOneMore(written: seq<Entry>)
    requires written != []
    ensures var before := FirstOccurrences(Keys(Front(written)));
      FirstOccurrences(Keys(written)) == if Last(written).key in before then before else before + [Last(written).key]
  {
    FirstOccurrencesMembers(Keys(Front(written)), Last(written).key);
    assert Front(Keys(written)) == Keys(Front(written)) && Last(Keys(written)) == Last(written).key;
  }

  /** Placing the last written entry among those kept so far. */
  lemma PlacedResolves(rules: Rules, written: seq<Entry>, before: seq<Entry>)
    requires written != [] && Resolves(rules.duplicateKeys, Front(written), before)
    requires PlaceEntry(rules, before, Last(written).key, Last(written).value).Ok?
    ensures var es := PlaceEntry(rules, before, Last(written).key, Last(written).value).value;
      Resolves(rules.duplicateKeys, written, es)
  {
    var policy, last := rules.duplicateKeys, Last(written);
    KeysOfPlaced(rules, before, last);
    OccurrencesOfOneMore(written);
    KeysOfPut(before, last.key, last.value);
    FirstOccurrencesMembers(Keys(Front(written)), last.key);
    if policy == First && last.key in Keys(before) {
      IgnoredKeeps(written, before);
    } else {
      PutKeeps(policy, written, before);
    }
    PlacedStaysDistinct(rules, before, last);
  }

  lemma PlacedStaysDistinct(rules: Rules, es: seq<Entry>, e: Entry)
    requires DistinctKeys(es) && PlaceEntry(rules, es, e.key, e.value).Ok?
    ensures DistinctKeys(PlaceEntry(rules, es, e.key, e.value).value)
  {
    KeysOfPut(es, e.key, e.value);
    if !HasKey(es, e.key) {
      NewKeyStaysDistinct(es, e);
    }
  }

  /** Only the refusing policy refuses, and only a repeated key; what is accepted is resolved. */
  lemma {:induction false} PlaceAllIsExact(rules: Rules, written: seq<Entry>)
    ensures var r := PlaceAll(rules, written);
      if rules.duplicateKeys == Refuse && Repeated(written).Some? then r == Err(DuplicateKey(Repeated(written).value))
      else r.Ok? && Resolves(rules.duplicateKeys, written, r.value)
    decreases |written|
  {
    if written != [] {
      PlaceAllIsExact(rules, Front(written));
      var before := PlaceAll(rules, Front(written));
      if before.Ok? {
        var last := Last(written);
        KeysOfPut(before.value, last.key, last.value);
        FirstOccurrencesMembers(Keys(Front(written)), last.key);
        if PlaceEntry(rules, before.value, last.key, last.value).Ok? {
          PlacedResolves(rules, written, before.value);
        }
      }
    }
  }

  /**
    * A mapping node without limits: it is refused exactly for a repeated key under the refusing
    * policy, else for the first fault of a pair; otherwise it has the written keys in
    * first-occurrence order, each with the written value its policy keeps.
    */
  lemma MappingMeans(rules: Rules, name: Option<string>, pairs: seq<Pair>, env: Env)
    ensures var l, r := Listed(rules, pairs, env), Denote(rules, MappingNode(name, pairs), env);
      if rules.duplicateKeys == Refuse && Repeated(l.entries).Some? then
        r == Err(DuplicateKey(Repeated(l.entries).value))
      else if l.fault.Some? then r == Err(l.fault.value)
      else r.Ok? && r.value.0.Mapping? && Resolves(rules.duplicateKeys, l.entries, r.value.0.entries)
  {
    PairsArePlaced(rules, pairs, env);
    PlaceAllIsExact(rules, Listed(rules, pairs, env).entries);
  }

  // ----- the key limit -----

  /** The keys before the last entry leave room under the limit. */
  predicate KeysFit(c: Config, written: seq<Entry>) {
    written == [] || |FirstOccurrences(Keys(Front(written)))| < c.maxMappingKeys
  }

  ghost predicate Accepted(c: Config, written: seq<Entry>) {
    KeysFit(c, written) && (c.rules.duplicateKeys == Refuse ==> DistinctKeys(written))
  }

  lemma FewerBefore(written: seq<Entry>)
    requires written != []
    ensures |FirstOccurrences(Keys(Front(written)))| <= |FirstOccurrences(Keys(written))|
  {
    assert Front(Keys(written)) == Keys(Front(written));
  }

  lemma FitsBefore(c: Config, written: seq<Entry>)
    requires written != [] && KeysFit(c, written)
    ensures KeysFit(c, Front(written))
  {
    if Front(written) != [] {
      FewerBefore(Front(written));
    }
  }

  ghost predicate IsKeyRefusal(c: Config, e: Error) {
    e.DuplicateKey? || e == Budget(MaxMappingKeys(c.maxMappingKeys, c.maxMappingKeys + 1))
  }

  lemma WithinKeyLimit(c: Config, written: seq<Entry>)
    requires InsertAll(c, written).Ok?
    ensures |InsertAll(c, written).value| <= c.maxMappingKeys
  {
  }

  lemma EntriesCountKeys(rules: Rules, written: seq<Entry>)
    requires PlaceAll(rules, written).Ok?
    ensures |PlaceAll(rules, written).value| == |FirstOccurrences(Keys(written))|
  {
    PlaceAllIsExact(rules, written);
    assert |Keys(PlaceAll(rules, written).value)| == |PlaceAll(rules, written).value|;
  }

  /** One entry, with as many before it as there are keys. */
  lemma OneIsPlaced(c: Config, es: seq<Entry>, e: Entry)
    requires |es| <= c.maxMappingKeys
    ensures var r, placed := InsertEntry(c, es, e.key, e.value), PlaceEntry(c.rules, es, e.key, e.value);
      && (r.Ok? <==> placed.Ok? && |es| < c.maxMappingKeys)
      && (r.Ok? ==> r == placed)
      && (r.Err? ==> IsKeyRefusal(c, r.error))
  {
  }

  /** The limit only refuses: what is inserted is what is placed. */
  lemma {:induction false} InsertedIsPlaced(c: Config, written: seq<Entry>)
    ensures InsertAll(c, written).Ok? <==> PlaceAll(c.rules, written).Ok? && KeysFit(c, written)
    ensures InsertAll(c, written).Ok? ==> InsertAll(c, written) == PlaceAll(c.rules, written)
    ensures InsertAll(c, written).Err? ==> IsKeyRefusal(c, InsertAll(c, written).error)
    decreases |written|
  {
    if written != [] {
      InsertedIsPlaced(c, Front(written));
      var before := InsertAll(c, Front(written));
      if before.Ok? {
        WithinKeyLimit(c, Front(written));
        EntriesCountKeys(c.rules, Front(written));
        OneIsPlaced(c, before.value, Last(written));
      } else if KeysFit(c, written) {
        FitsBefore(c, written);
      }
    }
  }

  /** An accepted mapping, and no other, is inserted, and then resolved. */
  lemma InsertAllIsExact(c: Config, written: seq<Entry>)
    ensures InsertAll(c, written).Ok? <==> Accepted(c, written)
    ensures InsertAll(c, written).Ok? ==> Resolves(c.rules.duplicateKeys, written, InsertAll(c, written).value)
  {
    InsertedIsPlaced(c, written);
    PlaceAllIsExact(c.rules, written);
    RepeatedIsExact(written);
  }

  lemma {:induction false} DistinctAreFirst(written: seq<Entry>)
    requires DistinctKeys(written)
    ensures FirstOccurrences(Keys(written)) == Keys(written)
    decreases |written|
  {
    if written != [] {
      DistinctAreFirst(Front(written));
      assert Front(Keys(written)) == Keys(Front(written)) && Last(Keys(written)) == Last(written).key;
      assert forall i :: 0 <= i < |written| - 1 ==> Keys(Front(written))[i] == written[i].key;
    }
  }

  /** Under the refusing policy: distinct keys, as many as the limit allows, and nothing else. */
  lemma RefuseIsExact(c: Config, written: seq<Entry>)
    requires c.rules.duplicateKeys == Refuse
    ensures Accepted(c, written) <==> DistinctKeys(written) && |written| <= c.maxMappingKeys
  {
    if written != [] && DistinctKeys(written) {
      DistinctAreFirst(Front(written));
    }
  }

  /**
    * A mapping node as it is loaded, once its start is accepted: it loads if and only if every
    * pair reads, the entries are accepted and its end is charged; it is then resolved. At the
    * key limit an entry is refused even if its key is there already.
    */
  lemma MappingLoads(c: Config, name: Option<string>, pairs: seq<Pair>, depth: nat, ctx: Ctx)
    requires Open(c, ctx, MappingStart(name), depth).Ok?
    ensures var start := Open(c, ctx, MappingStart(name), depth).value;
      var l, r := Metered(c, pairs, depth + 1, start), Eval(c, MappingNode(name, pairs), depth, ctx);
      && (r.Ok? <==> l.fault.None? && Accepted(c, l.entries) && Charge(c, l.ctx, MappingEnd).Ok?)
      && (r.Ok? ==> r.value.0.Mapping? && Resolves(c.rules.duplicateKeys, l.entries, r.value.0.entries))
      && (!Accepted(c, l.entries) ==> IsKeyRefusal(c, r.error))
  {
    var start := Open(c, ctx, MappingStart(name), depth).value;
    var l := Metered(c, pairs, depth + 1, start);
    PairsAreInserted(c, pairs, depth + 1, start);
    InsertAllIsExact(c, l.entries);
    InsertedIsPlaced(c, l.entries);
  }

  // ----- the limit as documented: at most so many keys -----

  predicate KeysWithin(c: Config, written: seq<Entry>) { |FirstOccurrences(Keys(written))| <= c.maxMappingKeys }

  /** The last entry repeats a key of a mapping that already holds as many as it may. */
  predicate RepeatsAtLimit(c: Config, written: seq<Entry>) {
    && written != []
    && |FirstOccurrences(Keys(Front(written)))| == c.maxMappingKeys
    && Last(written).key in Keys(Front(written))
  }

  /** The code's verdict is the documented one but for a last entry that repeats a key at the limit. */
  lemma KeyVerdictsAgree(c: Config, written: seq<Entry>)
    ensures (KeysFit(c, written) <==> KeysWithin(c, written)) <==> !RepeatsAtLimit(c, written)
  {
    if written != [] {
      OccurrencesOfOneMore(written);
      FirstOccurrencesMembers(Keys(Front(written)), Last(written).key);
    }
  }

  const PAIR_A := Pair(ScalarKey("a", Plain, None, None), ScalarNode("", Quoted, None, None))
  const TWICE_A := MappingNode(None, [PAIR_A, PAIR_A])
  const ENTRY_A := Entry("a", String(""))

  /** Room for the events of the mapping. */
  predicate Room(c: Config, m: Meter) {
    && m.events + 5 <= c.maxEvents && m.nodes + 5 <= c.maxNodes && m.scalarBytes + 2 <= c.maxTotalScalarBytes
    && 1 <= c.maxDepth
  }

  function AfterPairA(ctx: Ctx): Ctx {
    ctx.(meter := ctx.meter.(
      events := ctx.meter.events + 2, nodes := ctx.meter.nodes + 2, scalarBytes := ctx.meter.scalarBytes + 1))
  }

  lemma PairAIsRead(c: Config, depth: nat, ctx: Ctx)
    requires ctx.meter.events + 2 <= c.maxEvents && ctx.meter.nodes + 2 <= c.maxNodes
    requires ctx.meter.scalarBytes + 1 <= c.maxTotalScalarBytes
    ensures MeterPair(c, PAIR_A, depth, ctx) == Ok((ENTRY_A, AfterPairA(ctx)))
  {
    assert Utf8Len("a") == 1 && Utf8Len("") == 0;
  }

  lemma TwoPairsAreMetered(c: Config, pair: Pair, e: Entry, depth: nat, ctx: Ctx, ctx1: Ctx, ctx2: Ctx)
    requires MeterPair(c, pair, depth, ctx) == Ok((e, ctx1)) && MeterPair(c, pair, depth, ctx1) == Ok((e, ctx2))
    ensures Metered(c, [pair, pair], depth, ctx) == Listing([e, e], ctx2, None)
  {
    assert Front([pair, pair]) == [pair] && Front([pair]) == [];
    assert Metered(c, [], depth, ctx) == Listing([], ctx, None);
    assert Metered(c, [pair], depth, ctx) == Listing([e], ctx1, None);
  }

  lemma TwoAreInserted(c: Config, e: Entry)
    requires c.maxMappingKeys == 1
    ensures InsertAll(c, [e, e]) == Err(Budget(MaxMappingKeys(1, 2)))
  {
    assert Front([e, e]) == [e] && Front([e]) == [];
    assert InsertAll(c, []) == Ok([]);
    assert Put([], e.key, e.value) == [e];
    assert InsertAll(c, [e]) == Ok([e]);
  }

  lemma TwoArePlaced(rules: Rules, e: Entry)
    requires rules.duplicateKeys != Refuse
    ensures PlaceAll(rules, [e, e]) == Ok([e])
  {
    assert Front([e, e]) == [e] && Front([e]) == [];
    assert PlaceAll(rules, []) == Ok([]);
    assert Put([], e.key, e.value) == [e] && Put([e], e.key, e.value) == [e];
    assert PlaceAll(rules, [e]) == Ok([e]);
  }

  /**
    * With `max_mapping_keys` at one, `a` and again `a` come to a mapping of one key, which any
    * policy but the refusing one accepts, and the load is refused for a second key.
    */
  lemma RepeatIsRefused(c: Config, ctx: Ctx)
    requires c.maxMappingKeys == 1 && c.rules.duplicateKeys != Refuse && Room(c, ctx.meter)
    ensures Denote(c.rules, TWICE_A, Values(ctx)) == Ok((Mapping([ENTRY_A]), Values(ctx)))
    ensures Eval(c, TWICE_A, 0, ctx) == Err(Budget(MaxMappingKeys(1, 2)))
  {
    var start := ctx.(meter := ctx.meter.(events := ctx.meter.events + 1, nodes := ctx.meter.nodes + 1));
    assert Open(c, ctx, MappingStart(None), 0) == Ok(start);
    TwiceAIsListed(c, start);
    TwoArePlaced(c.rules, ENTRY_A);
    MappingIsPlaced(c.rules, [PAIR_A, PAIR_A], Values(ctx), [ENTRY_A, ENTRY_A]);
    TwoAreInserted(c, ENTRY_A);
    MappingIsInserted(c, [PAIR_A, PAIR_A], ctx, start, [ENTRY_A, ENTRY_A]);
  }

  lemma TwiceAIsListed(c: Config, ctx: Ctx)
    requires ctx.meter.events + 4 <= c.maxEvents && ctx.meter.nodes + 4 <= c.maxNodes
    requires ctx.meter.scalarBytes + 2 <= c.maxTotalScalarBytes
    ensures var pairs, entries := [PAIR_A, PAIR_A], [ENTRY_A, ENTRY_A];
      && Metered(c, pairs, 1, ctx) == Listing(entries, AfterPairA(AfterPairA(ctx)), None)
      && Listed(c.rules, pairs, Values(ctx)) == Listing(entries, Values(ctx), None)
  {
    var ctx1 := AfterPairA(ctx);
    var ctx2 := AfterPairA(ctx1);
    PairAIsRead(c, 1, ctx);
    PairAIsRead(c, 1, ctx1);
    TwoPairsAreMetered(c, PAIR_A, ENTRY_A, 1, ctx, ctx1, ctx2);
    MeteredIsListed(c, [PAIR_A, PAIR_A], 1, ctx);
  }

  lemma MappingIsInserted(c: Config, pairs: seq<Pair>, ctx: Ctx, start: Ctx, entries: seq<Entry>)
    requires Open(c, ctx, MappingStart(None), 0) == Ok(start) && Metered(c, pairs, 1, start).entries == entries
    ensures InsertAll(c, entries).Err? ==>
      Eval(c, MappingNode(None, pairs), 0, ctx) == Err(InsertAll(c, entries).error)
  {
    PairsAreInserted(c, pairs, 1, start);
  }

  lemma MappingIsPlaced(rules: Rules, pairs: seq<Pair>, env: Env, entries: seq<Entry>)
    requires Listed(rules, pairs, env) == Listing(entries, env, None) && PlaceAll(rules, entries).Ok?
    ensures Denote(rules, MappingNode(None, pairs), env) == Ok((Mapping(PlaceAll(rules, entries).value), env))
  {
    PairsArePlaced(rules, pairs, env);
  }
}
