/** The re-check of the expanded tree against the node and scalar budgets. */
module Recheck {
  import opened Common
  import opened Errors
  import opened OwnedTree

  /** Everything in the tree, tags included: what the worklist shrinks by. */
  ghost function Size(v: Value): nat
    decreases v
  {
    match v
    case Sequence(items) => 1 + SizeAll(items)
    case Mapping(entries) => 1 + SizeOfEntries(entries)
    case Tagged(_, inner) => 1 + Size(inner)
    case _ => 1
  }

  ghost function SizeAll(items: seq<Value>): nat
    decreases items
  {
    if items == [] then 0 else SizeAll(Front(items)) + Size(Last(items))
  }

  ghost function SizeOfEntries(entries: seq<Entry>): nat
    decreases entries
  {
    if entries == [] then 0 else SizeOfEntries(Front(entries)) + Size(Last(entries).value)
  }

  ghost function KeyText(entries: seq<Entry>): nat {
    if entries == [] then 0 else KeyText(Front(entries)) + Utf8Len(Last(entries).key)
  }

  function ValuesOf(entries: seq<Entry>): seq<Value> {
    seq(|entries|, i requires 0 <= i < |entries| => entries[i].value)
  }

  lemma {:induction false} SumsAppend(p: seq<Value>, items: seq<Value>)
    ensures NodesAll(p + items) == NodesAll(p) + NodesAll(items)
    ensures TextAll(p + items) == TextAll(p) + TextAll(items)
    ensures SizeAll(p + items) == SizeAll(p) + SizeAll(items)
    decreases |items|
  {
    if items == [] {
      assert p + items == p;
    } else {
      SumsAppend(p, Front(items));
      assert Front(p + items) == p + Front(items);
    }
  }

  lemma {:induction false} EntriesAreKeysAndValues(entries: seq<Entry>)
    ensures NodesOfEntries(entries) == |entries| + NodesAll(ValuesOf(entries))
    ensures TextOfEntries(entries) == KeyText(entries) + TextAll(ValuesOf(entries))
    ensures SizeOfEntries(entries) == SizeAll(ValuesOf(entries))
    decreases |entries|
  {
    if entries != [] {
      EntriesAreKeysAndValues(Front(entries));
      assert Front(ValuesOf(entries)) == ValuesOf(Front(entries));
    }
  }

  /** A mapping's own keys, and its values put on the worklist. */
  method PushEntries(base: seq<Value>, entries: seq<Entry>) returns (keyBytes: usize, pending: seq<Value>)
    ensures keyBytes == Sat(KeyText(entries)) && pending == base + ValuesOf(entries)
  {
    keyBytes, pending := 0, base;
    for i := 0 to |entries|
      invariant keyBytes == Sat(KeyText(entries[..i])) && pending == base + ValuesOf(entries[..i])
    {
      assert Front(entries[..i + 1]) == entries[..i];
      keyBytes := SatAdd(keyBytes, Utf8Len(entries[i].key));
      pending := pending + [entries[i].value];
    }
    assert entries[..|entries|] == entries;
  }

  /** One popped value: what it is charged, and the worklist after it; a tag is free. */
  method Unpack(value: Value, base: seq<Value>)
    returns (charge: nat, bytes: usize, pending: seq<Value>, ghost text: nat)
    ensures charge + NodesAll(pending) == NodesAll(base) + Nodes(value)
    ensures text + TextAll(pending) == TextAll(base) + Text(value) && bytes == Sat(text)
    ensures SizeAll(pending) < SizeAll(base) + Size(value)
  {
    match value
    case Tagged(_, inner) =>
      assert Front(base + [inner]) == base;
      charge, bytes, pending, text := 0, 0, base + [inner], 0;
    case Sequence(items) =>
      SumsAppend(base, items);
      charge, bytes, pending, text := 1, 0, base + items, 0;
    case Mapping(entries) =>
      EntriesAreKeysAndValues(entries);
      SumsAppend(base, ValuesOf(entries));
      bytes, pending := PushEntries(base, entries);
      charge, text := 1 + |entries|, KeyText(entries);
    case String(s) => charge, bytes, pending, text := 1, Sat(Utf8Len(s)), base, Utf8Len(s);
    case _ => charge, bytes, pending, text := 1, 0, base, 0;
  }

  /** Both budgets hold of the tree; a saturated sum exceeds every limit below the largest word. */
  ghost predicate WithinBudgets(v: Value, maxNodes: usize, maxTotalScalarBytes: usize) {
    Sat(Nodes(v)) <= maxNodes && Sat(Text(v)) <= maxTotalScalarBytes
  }

  /** The worklist visits in its own order and stops early; its verdict is that of the whole tree. */
  method EnforceExpandedNodeBudget(root: Value, maxNodes: usize, maxTotalScalarBytes: usize)
    returns (r: Result<(), Error>)
    ensures r.Ok? <==> WithinBudgets(root, maxNodes, maxTotalScalarBytes)
    ensures r.Err? ==> exists observed: nat ::
      || (r.error == Budget(MaxNodes(maxNodes, observed)) && maxNodes < observed <= Sat(Nodes(root)))
      || (r.error == Budget(MaxTotalScalarBytes(maxTotalScalarBytes, observed))
          && maxTotalScalarBytes < observed <= Sat(Text(root)))
  {
    var pending := [root];
    var observed: usize, scalarBytes: usize := 0, 0;
    ghost var nodes: nat, text: nat := 0, 0;
    assert Front(pending) == [];
    while pending != []
      invariant nodes + NodesAll(pending) == Nodes(root) && observed == Sat(nodes) <= maxNodes
      invariant text + TextAll(pending) == Text(root) && scalarBytes == Sat(text) <= maxTotalScalarBytes
      decreases SizeAll(pending)
    {
      var value, base := Last(pending), Front(pending);
      assert SizeAll(pending) == SizeAll(base) + Size(value);
      ghost var own: nat;
      var charge, bytes;
      charge, bytes, pending, own := Unpack(value, base);
      nodes, text := nodes + charge, text + own;
      observed := SatAdd(observed, charge);
      if observed > maxNodes {
        return Err(Budget(MaxNodes(maxNodes, observed)));
      }
      scalarBytes := SatAdd(scalarBytes, bytes);
      if scalarBytes > maxTotalScalarBytes {
        return Err(Budget(MaxTotalScalarBytes(maxTotalScalarBytes, scalarBytes)));
      }
    }
    return Ok(());
  }

  /** Saturation changes the verdict only for a limit at the largest word. */
  lemma SaturationIsExactBelowTheTop(v: Value, maxNodes: usize, maxTotalScalarBytes: usize)
    requires maxNodes < USIZE_MAX && maxTotalScalarBytes < USIZE_MAX
    ensures WithinBudgets(v, maxNodes, maxTotalScalarBytes) <==> Nodes(v) <= maxNodes && Text(v) <= maxTotalScalarBytes
  {
  }
}
