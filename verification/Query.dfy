/** Path queries over a borrowed tree. */
module Query {
  import opened Common
  import opened Tree

  datatype Segment = Key(key: string) | Index(index: nat) | Wildcard | RecursiveDescent

  /** A reference into a tree: the child positions that lead to a node, and the node. */
  datatype Ref = Ref(at: seq<nat>, node: Value)

  function ChildCount(v: Value): nat {
    match v case Sequence(items) => |items| case Mapping(entries) => |entries| case _ => 0
  }

  function Child(r: Ref, i: nat): (child: Ref)
    requires i < ChildCount(r.node)
    ensures Nodes(child.node) < Nodes(r.node)
  {
    ChildIsSmaller(r.node, i);
    Ref(r.at + [i], if r.node.Sequence? then r.node.items[i] else r.node.entries[i].value)
  }

  lemma {:induction false} ItemIsSmaller(items: seq<Value>, i: nat)
    requires i < |items|
    ensures Nodes(items[i]) <= NodesAll(items)
    decreases |items|
  {
    if i < |items| - 1 {
      ItemIsSmaller(Front(items), i);
    }
  }

  lemma {:induction false} EntryIsSmaller(entries: seq<Entry>, i: nat)
    requires i < |entries|
    ensures Nodes(entries[i].value) <= NodesOfEntries(entries)
    decreases |entries|
  {
    if i < |entries| - 1 {
      EntryIsSmaller(Front(entries), i);
    }
  }

  lemma ChildIsSmaller(v: Value, i: nat)
    requires i < ChildCount(v)
    ensures Nodes(if v.Sequence? then v.items[i] else v.entries[i].value) < Nodes(v)
  {
    match v
    case Sequence(items) => ItemIsSmaller(items, i);
    case Mapping(entries) => EntryIsSmaller(entries, i);
  }

  /** The one child a key or an index selects. */
  function Select(r: Ref, s: Segment): Option<Ref>
    requires s.Key? || s.Index?
  {
    match s
    case Key(key) =>
      if r.node.Mapping? && HasKey(r.node.entries, key) then Some(Child(r, IndexOf(r.node.entries, key))) else None
    case Index(i) => if r.node.Sequence? && i < |r.node.items| then Some(Child(r, i)) else None
  }

  /** The matches of `path` from `r`, in the order the evaluator reports them. */
  function Find(r: Ref, path: seq<Segment>): seq<Ref>
    decreases |path|, Nodes(r.node), 0
  {
    if path == [] then [r]
    else
      match path[0]
      case Wildcard => FindBelow(r, ChildCount(r.node), path[1..])
      case RecursiveDescent =>
        if path[1..] == [] then [] else Find(r, path[1..]) + FindBelow(r, ChildCount(r.node), path)
      case _ =>
        var child := Select(r, path[0]);
        if child.None? then [] else Find(child.value, path[1..])
  }

  /** The matches of `path` from each of the first `n` children. */
  function FindBelow(r: Ref, n: nat, path: seq<Segment>): seq<Ref>
    requires n <= ChildCount(r.node)
    decreases |path|, Nodes(r.node), 0, n
  {
    if n == 0 then [] else FindBelow(r, n - 1, path) + Find(Child(r, n - 1), path)
  }

  /** `borrowed_query_recursive`: appends the matches of the segments from `depth` on. */
  method QueryRecursive(r: Ref, path: seq<Segment>, depth: nat, results: seq<Ref>) returns (out: seq<Ref>)
    requires depth <= |path|
    ensures out == results + Find(r, path[depth..])
    decreases |path| - depth, Nodes(r.node), 0
  {
    if depth >= |path| {
      return results + [r];
    }
    assert path[depth..][1..] == path[depth + 1..];
    match path[depth]
    case Key(key) =>
      if r.node.Mapping? && HasKey(r.node.entries, key) {
        out := QueryRecursive(Child(r, IndexOf(r.node.entries, key)), path, depth + 1, results);
      } else {
        out := results;
      }
    case Index(i) =>
      if r.node.Sequence? && i < |r.node.items| {
        out := QueryRecursive(Child(r, i), path, depth + 1, results);
      } else {
        out := results;
      }
    case Wildcard =>
      out := QueryChildren(r, path, depth + 1, results);
    case RecursiveDescent =>
      if |path[depth + 1..]| == 0 {
        return results;
      }
      out := QueryRecursive(r, path, depth + 1, results);
      out := QueryChildren(r, path, depth, out);
  }

  method QueryChildren(r: Ref, path: seq<Segment>, depth: nat, results: seq<Ref>) returns (out: seq<Ref>)
    requires depth <= |path|
    ensures out == results + FindBelow(r, ChildCount(r.node), path[depth..])
    decreases |path| - depth, Nodes(r.node), 0, 0
  {
    out := results;
    for i := 0 to ChildCount(r.node)
      invariant out == results + FindBelow(r, i, path[depth..])
    {
      out := QueryRecursive(Child(r, i), path, depth, out);
    }
  }

  method QueryPath(root: Value, path: seq<Segment>) returns (results: seq<Ref>)
    ensures results == Find(Ref([], root), path)
  {
    results := QueryRecursive(Ref([], root), path, 0, []);
    assert path[0..] == path;
  }

  /** `get_query_path`: the first match, walked without collecting as long as the path is plain. */
  method GetQueryPath(root: Value, path: seq<Segment>) returns (first: Option<Ref>)
    ensures var all := Find(Ref([], root), path); first == if all == [] then None else Some(all[0])
  {
    var current := Ref([], root);
    assert path[0..] == path;
    for i := 0 to |path|
      invariant Find(current, path[i..]) == Find(Ref([], root), path)
    {
      assert path[i..][1..] == path[i + 1..];
      match path[i]
      case Key(key) =>
        if !(current.node.Mapping? && HasKey(current.node.entries, key)) {
          return None;
        }
        current := Child(current, IndexOf(current.node.entries, key));
      case Index(n) =>
        if !(current.node.Sequence? && n < |current.node.items|) {
          return None;
        }
        current := Child(current, n);
      case _ =>
        var all := QueryPath(root, path);
        return if all == [] then None else Some(all[0]);
    }
    return Some(current);
  }

  // ----- recursive descent means every node below, in preorder -----

  function Preorder(r: Ref): seq<Ref>
    decreases Nodes(r.node), 0
  {
    [r] + PreorderBelow(r, ChildCount(r.node))
  }

  function PreorderBelow(r: Ref, n: nat): seq<Ref>
    requires n <= ChildCount(r.node)
    decreases Nodes(r.node), 0, n
  {
    if n == 0 then [] else PreorderBelow(r, n - 1) + Preorder(Child(r, n - 1))
  }

  /** The matches of `path` from each reference in turn. */
  function Gather(refs: seq<Ref>, path: seq<Segment>): seq<Ref> {
    if refs == [] then [] else Gather(Front(refs), path) + Find(Last(refs), path)
  }

  lemma {:induction false} GatherAppend(a: seq<Ref>, b: seq<Ref>, path: seq<Segment>)
    ensures Gather(a + b, path) == Gather(a, path) + Gather(b, path)
    decreases |b|
  {
    if b == [] {
      assert a + b == a;
    } else {
      GatherAppend(a, Front(b), path);
      var all := a + b;
      assert Front(all) == a + Front(b) && Last(all) == Last(b);
      Associates(Gather(a, path), Gather(Front(b), path), Find(Last(b), path));
    }
  }

  lemma Associates(x: seq<Ref>, y: seq<Ref>, z: seq<Ref>)
    ensures x + y + z == x + (y + z)
  {
  }

  /** `..` followed by a rest reports the rest's matches at every node, in preorder. */
  lemma {:induction false} DescentIsPreorder(r: Ref, rest: seq<Segment>)
    requires rest != []
    ensures Find(r, [RecursiveDescent] + rest) == Gather(Preorder(r), rest)
    decreases Nodes(r.node), 0
  {
    assert ([RecursiveDescent] + rest)[1..] == rest;
    GatherAppend([r], PreorderBelow(r, ChildCount(r.node)), rest);
    assert Gather([r], rest) == Find(r, rest) by {
      assert Front([r]) == [];
    }
    DescentBelow(r, ChildCount(r.node), [RecursiveDescent] + rest, rest);
  }

  lemma {:induction false} DescentBelow(r: Ref, n: nat, path: seq<Segment>, rest: seq<Segment>)
    requires rest != [] && path == [RecursiveDescent] + rest && n <= ChildCount(r.node)
    ensures FindBelow(r, n, path) == Gather(PreorderBelow(r, n), rest)
    decreases Nodes(r.node), 0, n
  {
    if n > 0 {
      DescentBelow(r, n - 1, path, rest);
      DescentIsPreorder(Child(r, n - 1), rest);
      OneMoreBelow(r, n, path, rest);
    }
  }

  lemma OneMoreBelow(r: Ref, n: nat, path: seq<Segment>, rest: seq<Segment>)
    requires 0 < n <= ChildCount(r.node)
    requires FindBelow(r, n - 1, path) == Gather(PreorderBelow(r, n - 1), rest)
    requires Find(Child(r, n - 1), path) == Gather(Preorder(Child(r, n - 1)), rest)
    ensures FindBelow(r, n, path) == Gather(PreorderBelow(r, n), rest)
  {
    GatherAppend(PreorderBelow(r, n - 1), Preorder(Child(r, n - 1)), rest);
  }

  /** A path that ends in a descent reports nothing at all. */
  lemma {:induction false} TrailingDescent(r: Ref, path: seq<Segment>)
    requires path != [] && Last(path) == RecursiveDescent
    ensures Find(r, path) == []
    decreases |path|, Nodes(r.node), 0
  {
    if |path| > 1 {
      match path[0]
      case Wildcard => TrailingBelow(r, ChildCount(r.node), path[1..]);
      case RecursiveDescent =>
        TrailingDescent(r, path[1..]);
        TrailingBelow(r, ChildCount(r.node), path);
      case _ =>
        if Select(r, path[0]).Some? {
          TrailingDescent(Select(r, path[0]).value, path[1..]);
        }
    }
  }

  lemma {:induction false} TrailingBelow(r: Ref, n: nat, path: seq<Segment>)
    requires n <= ChildCount(r.node) && path != [] && Last(path) == RecursiveDescent
    ensures FindBelow(r, n, path) == []
    decreases |path|, Nodes(r.node), 0, n
  {
    if n > 0 {
      TrailingBelow(r, n - 1, path);
      TrailingDescent(Child(r, n - 1), path);
    }
  }

  /** Every match is a node of the tree, at the address it is reported under. */
  lemma {:induction false} MatchesAreNodes(r: Ref, path: seq<Segment>, m: Ref)
    requires m in Find(r, path)
    ensures m in Preorder(r)
    decreases |path|, Nodes(r.node), 0
  {
    if path != [] {
      match path[0]
      case Wildcard => MatchesBelow(r, ChildCount(r.node), path[1..], m);
      case RecursiveDescent =>
        if m in Find(r, path[1..]) {
          MatchesAreNodes(r, path[1..], m);
        } else {
          MatchesBelow(r, ChildCount(r.node), path, m);
        }
      case Key(key) =>
        MatchesAreNodes(Select(r, path[0]).value, path[1..], m);
        BelowHolds(r, ChildCount(r.node), IndexOf(r.node.entries, key), m);
      case Index(i) =>
        MatchesAreNodes(Select(r, path[0]).value, path[1..], m);
        BelowHolds(r, ChildCount(r.node), i, m);
    }
  }

  lemma {:induction false} MatchesBelow(r: Ref, n: nat, path: seq<Segment>, m: Ref)
    requires n <= ChildCount(r.node) && m in FindBelow(r, n, path)
    ensures m in PreorderBelow(r, ChildCount(r.node))
    decreases |path|, Nodes(r.node), 0, n
  {
    if m in FindBelow(r, n - 1, path) {
      MatchesBelow(r, n - 1, path, m);
    } else {
      MatchesAreNodes(Child(r, n - 1), path, m);
      BelowHolds(r, ChildCount(r.node), n - 1, m);
    }
  }

  lemma {:induction false} BelowHolds(r: Ref, n: nat, i: nat, m: Ref)
    requires i < n <= ChildCount(r.node) && m in Preorder(Child(r, i))
    ensures m in PreorderBelow(r, n)
  {
    if i < n - 1 {
      BelowHolds(r, n - 1, i, m);
    }
  }

  // ----- what each segment selects -----

  /** The children of a node in order, each at its address. */
  ghost function Children(r: Ref): seq<Ref> {
    match r.node
    case Sequence(items) => seq(|items|, i requires 0 <= i < |items| => Ref(r.at + [i], items[i]))
    case Mapping(entries) => seq(|entries|, i requires 0 <= i < |entries| => Ref(r.at + [i], entries[i].value))
    case _ => []
  }

  lemma {:induction false} BelowIsChildren(r: Ref, n: nat, path: seq<Segment>)
    requires n <= ChildCount(r.node)
    ensures |Children(r)| == ChildCount(r.node)
    ensures FindBelow(r, n, path) == Gather(Children(r)[..n], path)
    decreases n
  {
    if n > 0 {
      BelowIsChildren(r, n - 1, path);
      var upTo := Children(r)[..n];
      assert Front(upTo) == Children(r)[..n - 1] && Last(upTo) == Child(r, n - 1);
    }
  }

  lemma AllBelow(r: Ref, path: seq<Segment>)
    ensures FindBelow(r, ChildCount(r.node), path) == Gather(Children(r), path)
  {
    BelowIsChildren(r, ChildCount(r.node), path);
    assert Children(r)[..ChildCount(r.node)] == Children(r);
  }

  /** An index goes on from the item with that index, and from nothing else. */
  lemma IndexSelects(r: Ref, i: nat, rest: seq<Segment>)
    ensures Find(r, [Index(i)] + rest)
      == if r.node.Sequence? && i < |r.node.items| then Find(Ref(r.at + [i], r.node.items[i]), rest) else []
  {
    assert ([Index(i)] + rest)[1..] == rest;
  }

  ghost predicate IsFirst(entries: seq<Entry>, key: string, i: nat) {
    i < |entries| && entries[i].key == key && forall j :: 0 <= j < i ==> entries[j].key != key
  }

  /** A key goes on from the value under it, the first in a tree that repeats keys, and from nothing else. */
  lemma KeySelects(r: Ref, key: string, rest: seq<Segment>)
    ensures var found := Find(r, [Key(key)] + rest);
      if !r.node.Mapping? then found == []
      else
        var entries := r.node.entries;
        && ((forall j :: 0 <= j < |entries| ==> entries[j].key != key) ==> found == [])
        && (forall i: nat :: IsFirst(entries, key, i) ==> found == Find(Ref(r.at + [i], entries[i].value), rest))
  {
    assert ([Key(key)] + rest)[1..] == rest;
  }

  /** A wildcard goes on from every child, in order. */
  lemma WildcardSelects(r: Ref, rest: seq<Segment>)
    ensures Find(r, [Wildcard] + rest) == Gather(Children(r), rest)
  {
    assert ([Wildcard] + rest)[1..] == rest;
    AllBelow(r, rest);
  }

  /** A descent before a rest goes on from the node itself and then descends into every child, in order. */
  lemma DescentSelects(r: Ref, rest: seq<Segment>)
    requires rest != []
    ensures Find(r, [RecursiveDescent] + rest) == Find(r, rest) + Gather(Children(r), [RecursiveDescent] + rest)
  {
    assert ([RecursiveDescent] + rest)[1..] == rest;
    AllBelow(r, [RecursiveDescent] + rest);
  }

  // ----- the addresses a path spells -----

  /** Whether `path` leads from `v` along the child positions `at`. */
  ghost predicate Leads(v: Value, path: seq<Segment>, at: seq<nat>)
    decreases |path|, |at|
  {
    if path == [] then at == []
    else if path[0] == RecursiveDescent then
      && path[1..] != []
      && (Leads(v, path[1..], at) || (at != [] && Enters(v, at[0]) && Leads(Entered(v, at[0]), path, at[1..])))
    else
      at != [] && Enters(v, at[0]) && Takes(v, path[0], at[0]) && Leads(Entered(v, at[0]), path[1..], at[1..])
  }

  ghost predicate Enters(v: Value, i: nat) { (v.Sequence? && i < |v.items|) || (v.Mapping? && i < |v.entries|) }

  ghost function Entered(v: Value, i: nat): Value
    requires Enters(v, i)
  {
    if v.Sequence? then v.items[i] else v.entries[i].value
  }

  /** A segment allows the step to child `i`: its index, or its key and the first with it. */
  ghost predicate Takes(v: Value, s: Segment, i: nat)
    requires Enters(v, i)
  {
    match s
    case Index(n) => v.Sequence? && i == n
    case Key(key) => v.Mapping? && IsFirst(v.entries, key, i)
    case _ => true
  }

  /** The node along `at`. */
  ghost function Along(r: Ref, at: seq<nat>): Option<Ref>
    decreases |at|
  {
    if at == [] then Some(r)
    else if Enters(r.node, at[0]) then Along(Ref(r.at + [at[0]], Entered(r.node, at[0])), at[1..])
    else None
  }

  ghost predicate Spelled(r: Ref, path: seq<Segment>, m: Ref, at: seq<nat>) {
    Leads(r.node, path, at) && Along(r, at) == Some(m)
  }

  /** Every match stands where the path leads. */
  lemma {:induction false} MatchIsSpelled(r: Ref, path: seq<Segment>, m: Ref) returns (at: seq<nat>)
    requires m in Find(r, path)
    ensures Spelled(r, path, m, at)
    decreases |path|, Nodes(r.node), 0
  {
    if path == [] {
      at := [];
    } else {
      match path[0]
      case Wildcard => at := BelowIsSpelled(r, ChildCount(r.node), path[1..], m);
      case RecursiveDescent =>
        if m in Find(r, path[1..]) {
          at := MatchIsSpelled(r, path[1..], m);
        } else {
          at := BelowIsSpelled(r, ChildCount(r.node), path, m);
        }
      case Key(key) =>
        var i := IndexOf(r.node.entries, key);
        var below := MatchIsSpelled(Child(r, i), path[1..], m);
        at := [i] + below;
      case Index(i) =>
        var below := MatchIsSpelled(Child(r, i), path[1..], m);
        at := [i] + below;
    }
  }

  lemma {:induction false} BelowIsSpelled(r: Ref, n: nat, path: seq<Segment>, m: Ref) returns (at: seq<nat>)
    requires n <= ChildCount(r.node) && m in FindBelow(r, n, path)
    ensures at != [] && Enters(r.node, at[0]) && Spelled(Child(r, at[0]), path, m, at[1..])
    ensures Along(r, at) == Some(m)
    decreases |path|, Nodes(r.node), 0, n
  {
    if m in FindBelow(r, n - 1, path) {
      at := BelowIsSpelled(r, n - 1, path, m);
    } else {
      var below := MatchIsSpelled(Child(r, n - 1), path, m);
      at := [n - 1] + below;
    }
  }

  /** And wherever it leads there is a match. */
  lemma {:induction false} SpelledIsMatch(r: Ref, path: seq<Segment>, m: Ref, at: seq<nat>)
    requires Spelled(r, path, m, at)
    ensures m in Find(r, path)
    decreases |path|, |at|
  {
    if path != [] {
      if path[0] == RecursiveDescent {
        if Leads(r.node, path[1..], at) {
          SpelledIsMatch(r, path[1..], m, at);
        } else {
          SpelledIsMatch(Child(r, at[0]), path, m, at[1..]);
          BelowFinds(r, ChildCount(r.node), path, at[0], m);
        }
      } else {
        SpelledIsMatch(Child(r, at[0]), path[1..], m, at[1..]);
        if path[0] == Wildcard {
          BelowFinds(r, ChildCount(r.node), path[1..], at[0], m);
        } else if path[0].Key? {
          assert IndexOf(r.node.entries, path[0].key) == at[0];
        }
      }
    }
  }

  lemma {:induction false} BelowFinds(r: Ref, n: nat, path: seq<Segment>, i: nat, m: Ref)
    requires i < n <= ChildCount(r.node) && m in Find(Child(r, i), path)
    ensures m in FindBelow(r, n, path)
    decreases n
  {
    if i < n - 1 {
      BelowFinds(r, n - 1, path, i, m);
    }
  }

  /** A query matches exactly the nodes whose address its path spells. */
  lemma MatchesAreSpelled(root: Value, path: seq<Segment>, m: Ref)
    ensures m in Find(Ref([], root), path) <==> exists at :: Spelled(Ref([], root), path, m, at)
  {
    if m in Find(Ref([], root), path) {
      var at := MatchIsSpelled(Ref([], root), path, m);
    }
    if at :| Spelled(Ref([], root), path, m, at) {
      SpelledIsMatch(Ref([], root), path, m, at);
    }
  }

  /** The address a match is reported under is that of its node. */
  lemma {:induction false} AlongIsAddress(r: Ref, at: seq<nat>)
    ensures Along(r, at).Some? ==> Along(r, at).value.at == r.at + at
    decreases |at|
  {
    if at != [] && Enters(r.node, at[0]) {
      AlongIsAddress(Ref(r.at + [at[0]], Entered(r.node, at[0])), at[1..]);
      assert r.at + [at[0]] + at[1..] == r.at + at;
    }
  }
}
