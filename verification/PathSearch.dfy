/** From the address of a node to the field path that leads to it. */
module PathSearch {
  import opened Common
  import opened OwnedTree

  /** One structural step: into a mapping entry, into a sequence item, or under a tag. */
  datatype Step = Field(i: nat) | Item(i: nat) | Inside

  datatype Segment = Key(key: string) | Index(index: nat)

  type Position = seq<Step>

  /** Where each node lives in memory, by its position from the root. */
  type Layout = Position -> nat

  /** The node at `pos`, if the tree reaches so far. */
  function At(v: Value, pos: Position): Option<Value>
    decreases |pos|
  {
    if pos == [] then Some(v)
    else
      match (v, pos[0])
      case (Mapping(entries), Field(i)) => if i < |entries| then At(entries[i].value, pos[1..]) else None
      case (Sequence(items), Item(i)) => if i < |items| then At(items[i], pos[1..]) else None
      case (Tagged(_, inner), Inside) => At(inner, pos[1..])
      case _ => None
  }

  /** The keys and indices on the way to `pos`; tags name nothing. */
  function Segments(v: Value, pos: Position): seq<Segment>
    requires At(v, pos).Some?
    decreases |pos|
  {
    if pos == [] then []
    else
      match v
      case Mapping(entries) => [Key(entries[pos[0].i].key)] + Segments(entries[pos[0].i].value, pos[1..])
      case Sequence(items) => [Index(pos[0].i)] + Segments(items[pos[0].i], pos[1..])
      case Tagged(_, inner) => Segments(inner, pos[1..])
  }

  /** The first position, depth first, whose node lives at `target`. */
  function Search(v: Value, here: Position, layout: Layout, target: nat): Option<Position>
    decreases v, 1
  {
    if layout(here) == target then Some([])
    else
      match v
      case Mapping(entries) => SearchEntries(entries, here, layout, target)
      case Sequence(items) => SearchItems(items, here, layout, target)
      case Tagged(_, inner) => Under(Inside, Search(inner, here + [Inside], layout, target))
      case _ => None
  }

  function Under(step: Step, found: Option<Position>): Option<Position> {
    if found.None? then None else Some([step] + found.value)
  }

  function SearchEntries(entries: seq<Entry>, here: Position, layout: Layout, target: nat): Option<Position>
    decreases entries, 0
  {
    if entries == [] then None
    else
      var earlier := SearchEntries(Front(entries), here, layout, target);
      var step := Field(|entries| - 1);
      if earlier.Some? then earlier else Under(step, Search(Last(entries).value, here + [step], layout, target))
  }

  function SearchItems(items: seq<Value>, here: Position, layout: Layout, target: nat): Option<Position>
    decreases items, 0
  {
    if items == [] then None
    else
      var earlier := SearchItems(Front(items), here, layout, target);
      var step := Item(|items| - 1);
      if earlier.Some? then earlier else Under(step, Search(Last(items), here + [step], layout, target))
  }

  /** The search's report: on a hit the segments pushed, on a miss the vector as it was. */
  ghost predicate Reports(v: Value, hit: Option<Position>, segments: seq<Segment>, found: bool, out: seq<Segment>) {
    if hit.Some? then At(v, hit.value).Some? && found && out == segments + Segments(v, hit.value)
    else !found && out == segments
  }

  /** Pushes before each descent and pops after each miss. */
  method FindValuePath(v: Value, here: Position, layout: Layout, target: nat, segments: seq<Segment>)
    returns (found: bool, out: seq<Segment>)
    ensures Reports(v, Search(v, here, layout, target), segments, found, out)
    decreases v, 1
  {
    if layout(here) == target {
      return true, segments;
    }
    match v
    case Mapping(entries) => found, out := FindInEntries(entries, here, layout, target, segments);
    case Sequence(items) => found, out := FindInItems(items, here, layout, target, segments);
    case Tagged(_, inner) =>
      found, out := FindValuePath(inner, here + [Inside], layout, target, segments);
    case _ => found, out := false, segments;
  }

  method FindInEntries(entries: seq<Entry>, here: Position, layout: Layout, target: nat, segments: seq<Segment>)
    returns (found: bool, out: seq<Segment>)
    ensures Reports(Mapping(entries), SearchEntries(entries, here, layout, target), segments, found, out)
    decreases entries, 0
  {
    out := segments;
    for i := 0 to |entries|
      invariant out == segments && SearchEntries(entries[..i], here, layout, target) == None
    {
      OneMoreEntry(entries, i, here, layout, target);
      out := out + [Key(entries[i].key)];
      found, out := FindValuePath(entries[i].value, here + [Field(i)], layout, target, out);
      if found {
        EntriesFoundEarly(entries, i + 1, here, layout, target);
        return;
      }
      out := Front(out);
    }
    assert entries[..|entries|] == entries;
    found := false;
  }

  method FindInItems(items: seq<Value>, here: Position, layout: Layout, target: nat, segments: seq<Segment>)
    returns (found: bool, out: seq<Segment>)
    ensures Reports(Sequence(items), SearchItems(items, here, layout, target), segments, found, out)
    decreases items, 0
  {
    out := segments;
    for i := 0 to |items|
      invariant out == segments && SearchItems(items[..i], here, layout, target) == None
    {
      OneMoreItem(items, i, here, layout, target);
      out := out + [Index(i)];
      found, out := FindValuePath(items[i], here + [Item(i)], layout, target, out);
      if found {
        ItemsFoundEarly(items, i + 1, here, layout, target);
        return;
      }
      out := Front(out);
    }
    assert items[..|items|] == items;
    found := false;
  }

  lemma OneMoreEntry(entries: seq<Entry>, i: nat, here: Position, layout: Layout, target: nat)
    requires i < |entries| && SearchEntries(entries[..i], here, layout, target) == None
    ensures SearchEntries(entries[..i + 1], here, layout, target)
      == Under(Field(i), Search(entries[i].value, here + [Field(i)], layout, target))
  {
    var upTo := entries[..i + 1];
    assert Front(upTo) == entries[..i] && Last(upTo) == entries[i];
  }

  lemma OneMoreItem(items: seq<Value>, i: nat, here: Position, layout: Layout, target: nat)
    requires i < |items| && SearchItems(items[..i], here, layout, target) == None
    ensures SearchItems(items[..i + 1], here, layout, target)
      == Under(Item(i), Search(items[i], here + [Item(i)], layout, target))
  {
    var upTo := items[..i + 1];
    assert Front(upTo) == items[..i] && Last(upTo) == items[i];
  }

  lemma {:induction false} EntriesFoundEarly(entries: seq<Entry>, n: nat, here: Position, layout: Layout, target: nat)
    requires n <= |entries| && SearchEntries(entries[..n], here, layout, target).Some?
    ensures SearchEntries(entries, here, layout, target) == SearchEntries(entries[..n], here, layout, target)
    decreases |entries|
  {
    if n < |entries| {
      assert Front(entries)[..n] == entries[..n];
      EntriesFoundEarly(Front(entries), n, here, layout, target);
    } else {
      assert entries[..n] == entries;
    }
  }

  lemma {:induction false} ItemsFoundEarly(items: seq<Value>, n: nat, here: Position, layout: Layout, target: nat)
    requires n <= |items| && SearchItems(items[..n], here, layout, target).Some?
    ensures SearchItems(items, here, layout, target) == SearchItems(items[..n], here, layout, target)
    decreases |items|
  {
    if n < |items| {
      assert Front(items)[..n] == items[..n];
      ItemsFoundEarly(Front(items), n, here, layout, target);
    } else {
      assert items[..n] == items;
    }
  }

  // ----- a hit is a node at the target -----

  ghost predicate Hits(v: Value, here: Position, layout: Layout, target: nat, pos: Position) {
    At(v, pos).Some? && layout(here + pos) == target
  }

  lemma HitsUnder(v: Value, child: Value, step: Step, here: Position, layout: Layout, target: nat, pos: Position)
    requires At(v, [step]) == Some(child) && Hits(child, here + [step], layout, target, pos)
    ensures Hits(v, here, layout, target, [step] + pos)
  {
    assert ([step] + pos)[1..] == pos;
    assert here + ([step] + pos) == here + [step] + pos;
  }

  lemma {:induction false} SearchIsSound(v: Value, here: Position, layout: Layout, target: nat)
    ensures var hit := Search(v, here, layout, target); hit.Some? ==> Hits(v, here, layout, target, hit.value)
    decreases v, 1
  {
    if layout(here) == target {
      assert here + [] == here;
    } else {
      match v
      case Mapping(entries) => EntriesAreSound(entries, here, layout, target);
      case Sequence(items) => ItemsAreSound(items, here, layout, target);
      case Tagged(_, inner) =>
        SearchIsSound(inner, here + [Inside], layout, target);
        var hit := Search(inner, here + [Inside], layout, target);
        if hit.Some? {
          HitsUnder(v, inner, Inside, here, layout, target, hit.value);
        }
      case _ =>
    }
  }

  lemma {:induction false} EntriesAreSound(entries: seq<Entry>, here: Position, layout: Layout, target: nat)
    ensures var hit := SearchEntries(entries, here, layout, target);
      hit.Some? ==> Hits(Mapping(entries), here, layout, target, hit.value) && hit.value != []
    decreases entries, 0
  {
    if entries != [] {
      EntriesAreSound(Front(entries), here, layout, target);
      var step := Field(|entries| - 1);
      SearchIsSound(Last(entries).value, here + [step], layout, target);
      var hit := Search(Last(entries).value, here + [step], layout, target);
      if hit.Some? {
        HitsUnder(Mapping(entries), Last(entries).value, step, here, layout, target, hit.value);
      }
    }
  }

  lemma {:induction false} ItemsAreSound(items: seq<Value>, here: Position, layout: Layout, target: nat)
    ensures var hit := SearchItems(items, here, layout, target);
      hit.Some? ==> Hits(Sequence(items), here, layout, target, hit.value) && hit.value != []
    decreases items, 0
  {
    if items != [] {
      ItemsAreSound(Front(items), here, layout, target);
      var step := Item(|items| - 1);
      SearchIsSound(Last(items), here + [step], layout, target);
      var hit := Search(Last(items), here + [step], layout, target);
      if hit.Some? {
        HitsUnder(Sequence(items), Last(items), step, here, layout, target, hit.value);
      }
    }
  }

  // ----- a miss means no node is at the target -----

  lemma {:induction false} SearchIsComplete(v: Value, here: Position, layout: Layout, target: nat, pos: Position)
    requires Hits(v, here, layout, target, pos)
    ensures Search(v, here, layout, target).Some?
    decreases v, 1
  {
    if pos == [] {
      assert here + [] == here;
    } else {
      var step := pos[0];
      assert here + [step] + pos[1..] == here + pos;
      match v
      case Mapping(entries) =>
        SearchIsComplete(entries[step.i].value, here + [step], layout, target, pos[1..]);
        EntryIsReached(entries, step.i, here, layout, target);
      case Sequence(items) =>
        SearchIsComplete(items[step.i], here + [step], layout, target, pos[1..]);
        ItemIsReached(items, step.i, here, layout, target);
      case Tagged(_, inner) => SearchIsComplete(inner, here + [Inside], layout, target, pos[1..]);
      case _ => assert false;
    }
  }

  lemma {:induction false} EntryIsReached(entries: seq<Entry>, i: nat, here: Position, layout: Layout, target: nat)
    requires i < |entries| && Search(entries[i].value, here + [Field(i)], layout, target).Some?
    ensures SearchEntries(entries, here, layout, target).Some?
    decreases |entries|
  {
    if i < |entries| - 1 {
      EntryIsReached(Front(entries), i, here, layout, target);
    }
  }

  lemma {:induction false} ItemIsReached(items: seq<Value>, i: nat, here: Position, layout: Layout, target: nat)
    requires i < |items| && Search(items[i], here + [Item(i)], layout, target).Some?
    ensures SearchItems(items, here, layout, target).Some?
    decreases |items|
  {
    if i < |items| - 1 {
      ItemIsReached(Front(items), i, here, layout, target);
    }
  }

  // ----- a hit is the first in depth-first order -----

  /** `p` is `q` or comes before it depth first: above it, or under an earlier child. */
  ghost predicate NoLater(p: Position, q: Position)
    decreases |p|
  {
    p == [] || (q != [] && (Earlier(p[0], q[0]) || (p[0] == q[0] && NoLater(p[1..], q[1..]))))
  }

  ghost predicate Earlier(a: Step, b: Step) { ((a.Field? && b.Field?) || (a.Item? && b.Item?)) && a.i < b.i }

  /** No node at the target comes before the one that is reported. */
  lemma {:induction false} SearchIsFirst(v: Value, here: Position, layout: Layout, target: nat, pos: Position)
    requires Hits(v, here, layout, target, pos)
    ensures var hit := Search(v, here, layout, target); hit.Some? && NoLater(hit.value, pos)
    decreases v, 1
  {
    if layout(here) != target {
      assert here + [] == here;
      var step := pos[0];
      assert here + [step] + pos[1..] == here + pos;
      match v
      case Mapping(entries) =>
        SearchIsFirst(entries[step.i].value, here + [step], layout, target, pos[1..]);
        FirstEntry(entries, step.i, here, layout, target, pos);
      case Sequence(items) =>
        SearchIsFirst(items[step.i], here + [step], layout, target, pos[1..]);
        FirstItem(items, step.i, here, layout, target, pos);
      case Tagged(_, inner) => SearchIsFirst(inner, here + [Inside], layout, target, pos[1..]);
      case _ => assert false;
    }
  }

  lemma {:induction false} FirstEntry(
      entries: seq<Entry>, i: nat, here: Position, layout: Layout, target: nat, pos: Position)
    requires i < |entries| && pos != [] && pos[0] == Field(i)
    requires var hit := Search(entries[i].value, here + [Field(i)], layout, target);
      hit.Some? && NoLater(hit.value, pos[1..])
    ensures var hit := SearchEntries(entries, here, layout, target); hit.Some? && NoLater(hit.value, pos)
    decreases |entries|
  {
    if i < |entries| - 1 {
      FirstEntry(Front(entries), i, here, layout, target, pos);
    } else {
      EntriesAreSound(Front(entries), here, layout, target);
    }
  }

  lemma {:induction false} FirstItem(
      items: seq<Value>, i: nat, here: Position, layout: Layout, target: nat, pos: Position)
    requires i < |items| && pos != [] && pos[0] == Item(i)
    requires var hit := Search(items[i], here + [Item(i)], layout, target); hit.Some? && NoLater(hit.value, pos[1..])
    ensures var hit := SearchItems(items, here, layout, target); hit.Some? && NoLater(hit.value, pos)
    decreases |items|
  {
    if i < |items| - 1 {
      FirstItem(Front(items), i, here, layout, target, pos);
    } else {
      ItemsAreSound(Front(items), here, layout, target);
    }
  }

  // ----- the segments lead back to the node -----

  function Untagged(v: Value): Value
    decreases v
  {
    if v.Tagged? then Untagged(v.inner) else v
  }

  /** What a reader reaches by the segments, looking through tags. */
  function Follow(v: Value, segments: seq<Segment>): Option<Value>
    decreases |segments|
  {
    var u := Untagged(v);
    if segments == [] then Some(u)
    else
      match segments[0]
      case Key(key) =>
        var child := if u.Mapping? then Get(u.entries, key) else None;
        if child.None? then None else Follow(child.value, segments[1..])
      case Index(i) => if u.Sequence? && i < |u.items| then Follow(u.items[i], segments[1..]) else None
  }

  ghost predicate DistinctKeys(v: Value)
    decreases v
  {
    match v
    case Mapping(entries) =>
      && (forall i, j :: 0 <= i < j < |entries| ==> entries[i].key != entries[j].key)
      && forall i :: 0 <= i < |entries| ==> DistinctKeys(entries[i].value)
    case Sequence(items) => forall i :: 0 <= i < |items| ==> DistinctKeys(items[i])
    case Tagged(_, inner) => DistinctKeys(inner)
    case _ => true
  }

  lemma {:induction false} GetAt(entries: seq<Entry>, i: nat)
    requires i < |entries| && forall j, k :: 0 <= j < k < |entries| ==> entries[j].key != entries[k].key
    ensures Get(entries, entries[i].key) == Some(entries[i].value)
    decreases |entries|
  {
    if i < |entries| - 1 {
      GetAt(Front(entries), i);
    }
  }

  /** A field path names its node, up to the tags around it. */
  lemma {:induction false} SegmentsLeadBack(v: Value, pos: Position)
    requires DistinctKeys(v) && At(v, pos).Some?
    ensures Follow(v, Segments(v, pos)) == Some(Untagged(At(v, pos).value))
    decreases |pos|
  {
    if pos != [] {
      match v
      case Mapping(entries) =>
        GetAt(entries, pos[0].i);
        SegmentsLeadBack(entries[pos[0].i].value, pos[1..]);
        assert Segments(v, pos)[1..] == Segments(entries[pos[0].i].value, pos[1..]);
      case Sequence(items) =>
        SegmentsLeadBack(items[pos[0].i], pos[1..]);
        assert Segments(v, pos)[1..] == Segments(items[pos[0].i], pos[1..]);
      case Tagged(_, inner) => SegmentsLeadBack(inner, pos[1..]);
      case _ => assert false;
    }
  }

  /** The search from the root: found exactly when some node lives there, and then named. */
  lemma PathNamesTarget(root: Value, layout: Layout, target: nat, found: bool, out: seq<Segment>)
    requires DistinctKeys(root) && Reports(root, Search(root, [], layout, target), [], found, out)
    ensures found <==> exists pos :: Hits(root, [], layout, target, pos)
    ensures found ==> exists pos ::
      Hits(root, [], layout, target, pos) && Follow(root, out) == Some(Untagged(At(root, pos).value))
    ensures !found ==> out == []
  {
    SearchIsSound(root, [], layout, target);
    if pos :| Hits(root, [], layout, target, pos) {
      SearchIsComplete(root, [], layout, target, pos);
    }
    if found {
      var hit := Search(root, [], layout, target).value;
      assert [] + Segments(root, hit) == Segments(root, hit);
      SegmentsLeadBack(root, hit);
    }
  }
}
