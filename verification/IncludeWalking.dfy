/** The walk as the source has it: an object whose counters every source is charged to. */
module IncludeWalking {
  import opened Common
  import opened Errors
  import opened OwnedTree
  import opened Include
  import opened IncludeOutcome
  import IncludeAccount
  import Recheck

  class IncludeWalk {
    const world: World
    var visited: set<string>
    var nextId: nat
    var sources: usize
    var bytes: usize
    var scalarBytes: usize

    ghost function Abs(): Counters
      reads this
    {
      Counters(visited, nextId, sources, bytes, scalarBytes)
    }

    constructor (w: World, text: usize)
      ensures world == w && Abs() == Counters({}, 1, 0, 0, text)
    {
      world := w;
      visited, nextId, sources, bytes, scalarBytes := {}, 1, 0, 0, text;
    }

    ghost predicate Follows<T>(spec: Result<(T, Counters), Error>, r: Result<T, Error>)
      reads this
    {
      match spec
      case Ok((t, s)) => r == Ok(t) && Abs() == s
      case Err(e) => r == Err(e)
    }

    method Charge(source: Source) returns (r: Result<(), Error>)
      modifies this`sources, this`bytes
      ensures match Include.Charge(world, old(Abs()), source)
              case Ok(s) => r.Ok? && Abs() == s
              case Err(e) => r == Err(e)
    {
      sources := SatAdd(sources, 1);
      if sources > world.maxIncludeSources {
        return Err(Budget(MaxIncludeSources(world.maxIncludeSources, sources)));
      }
      bytes := SatAdd(bytes, Utf8Len(source.bytes));
      if bytes > world.maxTotalIncludeBytes {
        return Err(Budget(MaxIncludeBytes(world.maxTotalIncludeBytes, bytes)));
      }
      if Utf8Len(source.bytes) > world.maxDocumentLength {
        return Err(IncludeTooLong(source.name, world.maxDocumentLength));
      }
      return Ok(());
    }

    /** Replaces every include under `value`; the new tree is the result. */
    method Walk(value: Value, at: At) returns (r: Result<Value, Error>)
      modifies this
      ensures Follows(Include.Walk(world, value, at, old(Abs())), r)
      decreases Left(world, at), value, 1
    {
      if value.Tagged? && value.tag == INCLUDE {
        if !value.inner.String? {
          return Err(IncludeSpecNotString);
        }
        scalarBytes := SatSub(scalarBytes, Utf8Len(value.inner.s));
        r := Load(value.inner.s, at);
        return;
      }
      match value
      case Tagged(tag, inner) =>
        var inner1 :- Walk(inner, at);
        return Ok(Tagged(tag, inner1));
      case Sequence(items) =>
        var items1 :- WalkItems(items, Inner(at));
        return Ok(Sequence(items1));
      case Mapping(entries) =>
        var entries1 :- WalkEntries(entries, Inner(at));
        return Ok(Mapping(entries1));
      case _ => return Ok(value);
    }

    method WalkItems(items: seq<Value>, at: At) returns (r: Result<seq<Value>, Error>)
      modifies this
      ensures Follows(Include.WalkItems(world, items, at, old(Abs())), r)
      decreases Left(world, at), items, 0
    {
      var done := [];
      for i := 0 to |items|
        invariant Include.WalkItems(world, items[..i], at, old(Abs())) == Ok((done, Abs()))
      {
        assert Front(items[..i + 1]) == items[..i] && Last(items[..i + 1]) == items[i];
        var item := Walk(items[i], at);
        if item.Err? {
          StopsWalk(items, i + 1, at, old(Abs()));
          return Err(item.error);
        }
        done := done + [item.value];
      }
      assert items[..|items|] == items;
      return Ok(done);
    }

    lemma {:induction false} StopsWalk(items: seq<Value>, i: nat, at: At, s: Counters)
      requires i <= |items| && Include.WalkItems(world, items[..i], at, s).Err?
      ensures Include.WalkItems(world, items, at, s) == Include.WalkItems(world, items[..i], at, s)
      decreases |items|
    {
      if i < |items| {
        assert Front(items)[..i] == items[..i];
        StopsWalk(Front(items), i, at, s);
      } else {
        assert items[..i] == items;
      }
    }

    method WalkEntries(entries: seq<Entry>, at: At) returns (r: Result<seq<Entry>, Error>)
      modifies this
      ensures Follows(Include.WalkEntries(world, entries, at, old(Abs())), r)
      decreases Left(world, at), entries, 0
    {
      var done := [];
      for i := 0 to |entries|
        invariant Include.WalkEntries(world, entries[..i], at, old(Abs())) == Ok((done, Abs()))
      {
        assert Front(entries[..i + 1]) == entries[..i] && Last(entries[..i + 1]) == entries[i];
        var value := Walk(entries[i].value, at);
        if value.Err? {
          StopsEntries(entries, i + 1, at, old(Abs()));
          return Err(value.error);
        }
        done := done + [Entry(entries[i].key, value.value)];
      }
      assert entries[..|entries|] == entries;
      return Ok(done);
    }

    lemma {:induction false} StopsEntries(entries: seq<Entry>, i: nat, at: At, s: Counters)
      requires i <= |entries| && Include.WalkEntries(world, entries[..i], at, s).Err?
      ensures Include.WalkEntries(world, entries, at, s) == Include.WalkEntries(world, entries[..i], at, s)
      decreases |entries|
    {
      if i < |entries| {
        assert Front(entries)[..i] == entries[..i];
        StopsEntries(Front(entries), i, at, s);
      } else {
        assert entries[..i] == entries;
      }
    }

    /** Resolve, charge and parse one include. */
    method Fetch(spec: string, at: At) returns (r: Result<(Value, string), Error>)
      modifies this
      ensures match Include.Fetch(world, spec, at, old(Abs()))
              case Ok((tree, name, s)) => r == Ok((tree, name)) && Abs() == s
              case Err(e) => r == Err(e)
    {
      if at.includeDepth + 1 > world.maxIncludeDepth {
        return Err(RecursionLimitExceeded(at.includeDepth + 1));
      }
      var remaining := SatSub(world.maxTotalIncludeBytes, bytes);
      var request := Request(spec, at.fromId, at.includeDepth, Min(remaining, world.maxDocumentLength));
      var source :- world.resolve(request, sources);
      var _ :- Charge(source);
      if source.name in visited {
        return Err(IncludeCycle(source.name));
      }
      visited := visited + {source.name};
      nextId := nextId + 1;
      var included :- world.parse(source.bytes, SatSub(world.maxDepth, at.treeDepth));
      scalarBytes := SatAdd(scalarBytes, Sat(Text(included)));
      if scalarBytes > world.maxTotalScalarBytes {
        return Err(Budget(MaxTotalScalarBytes(world.maxTotalScalarBytes, scalarBytes)));
      }
      return Ok((included, source.name));
    }

    /** Then resolve the includes inside it, leave the chain, and narrow to the fragment. */
    method Load(spec: string, at: At) returns (r: Result<Value, Error>)
      modifies this
      ensures Follows(Include.Load(world, spec, at, old(Abs())), r)
      decreases Left(world, at), spec, 0
    {
      var id := nextId;
      var fetched :- Fetch(spec, at);
      var (included, identity) := fetched;
      var resolved :- Walk(included, At(at.includeDepth + 1, id, at.treeDepth));
      visited := visited - {identity};
      r := SelectFragment(resolved, spec);
    }
  }

  /** The walk of a whole document, from its measured text. */
  function Whole(w: World, value: Value): Result<(Value, Counters), Error> {
    Include.Walk(w, value, At(0, 0, 0), Counters({}, 1, 0, 0, Sat(Text(value))))
  }

  /** `apply_includes` with a resolver installed: the walk, then the re-check. */
  method ApplyIncludes(value: Value, w: World) returns (r: Result<Value, Error>)
    ensures match Whole(w, value)
            case Err(e) => r == Err(e)
            case Ok((tree, _)) =>
              && (r.Ok? <==> Recheck.WithinBudgets(tree, w.maxNodes, w.maxTotalScalarBytes))
              && (r.Ok? ==> r.value == tree && Resolved(tree))
  {
    var walk := new IncludeWalk(w, Sat(Text(value)));
    var tree :- walk.Walk(value, At(0, 0, 0));
    WalkResolves(w, value, At(0, 0, 0), Counters({}, 1, 0, 0, Sat(Text(value))));
    var checked := Recheck.EnforceExpandedNodeBudget(tree, w.maxNodes, w.maxTotalScalarBytes);
    if checked.Err? {
      return Err(checked.error);
    }
    return Ok(tree);
  }

  /**
    * A walk that starts within the scalar budget ends within it: the account covers the final
    * text, so the re-check can refuse a walked tree for its nodes only.
    */
  lemma ScalarRecheckIsImplied(w: World, value: Value)
    requires Text(value) <= w.maxTotalScalarBytes && Whole(w, value).Ok?
    ensures Sat(Text(Whole(w, value).value.0)) <= w.maxTotalScalarBytes
  {
    var at, s := At(0, 0, 0), Counters({}, 1, 0, 0, Sat(Text(value)));
    if w.maxTotalScalarBytes < USIZE_MAX {
      WalkResolves(w, value, at, s);
      IncludeAccount.WalkBalances(w, value, at, s);
    }
  }
}
