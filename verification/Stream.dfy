/** The lazy stream of documents and its consumers. */
module Stream {
  import opened Common
  import opened Errors
  import opened Markers
  import opened Splitting

  /** The documents from the one begun at `start`, when the search for markers goes on at `from`. */
  ghost function Rest(t: Units, start: nat, from: nat): seq<Units>
    requires start <= |t| && start <= from
    decreases |t| - from
  {
    if from + 3 > |t| then [t[start..|t|]]
    else if IsDocMarkerAt(t, from) then [t[start..from]] + Rest(t, from, from + 3)
    else Rest(t, start, from + 1)
  }

  /** The document being cut is not blank. */
  ghost predicate Opened(t: Units, start: Option<nat>, from: nat) {
    start.Some? ==> start.value <= from && start.value < |t| && !BlankFrom(t, start.value)
  }

  ghost function Following(t: Units, start: Option<nat>, from: nat): seq<Units> {
    if start.Some? && start.value <= from && start.value <= |t| then Rest(t, start.value, from) else []
  }

  /** The documents to come: the one held back, if any, and those still to be cut. */
  ghost function ToCome(t: Units, pending: Option<(nat, nat)>, start: Option<nat>, from: nat): seq<Units> {
    if pending.Some? && pending.value.0 <= pending.value.1 <= |t|
    then [t[pending.value.0..pending.value.1]] + Following(t, start, from)
    else Following(t, start, from)
  }

  class DocumentStream {
    const input: Text
    const maxDocuments: usize
    var pending: Option<(nat, nat)>
    var currentStart: Option<nat>
    var searchFrom: nat
    var yielded: usize
    var exhausted: bool

    ghost predicate Valid()
      reads this
    {
      && (pending.Some? ==> pending.value.0 < pending.value.1 <= |input|)
      && Opened(input, currentStart, searchFrom)
      && yielded + |Remaining()| < USIZE_MAX
    }

    /** The documents still to come, the budget aside. */
    ghost function Remaining(): seq<Units>
      reads this
    {
      if exhausted then [] else ToCome(input, pending, currentStart, searchFrom)
    }

    /** Everything the stream will still yield. */
    ghost function Items(): seq<Yield>
      reads this
    {
      Yields(Remaining(), yielded, maxDocuments)
    }

    constructor (text: Text, max: usize)
      ensures Valid() && input == text && maxDocuments == max
      ensures Remaining() == Documents(text) && yielded == 0 && !exhausted
    {
      var first := MarkerAtOrAfter(text, 0);
      input, maxDocuments := text, max;
      yielded, exhausted := 0, false;
      var fields := StartFields(text, first);
      pending, currentStart, searchFrom := fields.0, fields.1, fields.2;
      new;
      StartsWithDocuments(text);
      FewerThanScalars(text);
    }

    /** Charges one document to the budget and slices it out. */
    method Emit(start: nat, end: nat) returns (r: Yield)
      requires start <= end <= |input| && yielded + 1 < USIZE_MAX
      modifies this`yielded, this`exhausted
      ensures if old(yielded) + 1 > maxDocuments
        then r == Err(Budget(MaxDocuments(maxDocuments, old(yielded) + 1))) && exhausted && yielded == old(yielded)
        else r == Ok(input[start..end]) && exhausted == old(exhausted) && yielded == old(yielded) + 1
    {
      var observed := SatAdd(yielded, 1);
      if observed > maxDocuments {
        exhausted := true;
        return Err(Budget(MaxDocuments(maxDocuments, observed)));
      }
      yielded := observed;
      return Ok(input[start..end]);
    }

    /** What one call yields and leaves, from `rest` to come and `was` yielded before. */
    ghost predicate Yielded(rest: seq<Units>, was: nat, r: Option<Yield>)
      reads this
    {
      if rest == [] then r == None && Remaining() == [] && yielded == was && exhausted
      else if was + 1 > maxDocuments then
        r == Some(Err(Budget(MaxDocuments(maxDocuments, was + 1)))) && Remaining() == [] && exhausted
      else r == Some(Ok(rest[0])) && Remaining() == rest[1..] && yielded == was + 1
    }

    /** The next document, the one budget error, or nothing for good. */
    method Next() returns (r: Option<Yield>)
      requires Valid()
      modifies this
      ensures Valid() && Yielded(old(Remaining()), old(yielded), r)
      ensures r == (if old(Items()) == [] then None else Some(old(Items())[0]))
      ensures Items() == if old(Items()) == [] then [] else old(Items())[1..]
    {
      if exhausted {
        return None;
      }
      if pending.Some? {
        var (start, end) := pending.value;
        pending := None;
        var item := Emit(start, end);
        return Some(item);
      }
      r := NextCut();
    }

    /** The rest of `next`, once no document is held back. */
    method NextCut() returns (r: Option<Yield>)
      requires Valid() && !exhausted && pending.None?
      modifies this
      ensures Valid() && Yielded(old(Remaining()), old(yielded), r)
    {
      if currentStart.None? {
        exhausted := true;
        return None;
      }
      var start := currentStart.value;
      assert Remaining() == Rest(input, start, searchFrom);
      var marker := MarkerAtOrAfter(input, searchFrom);
      RestFrom(input, start, searchFrom);
      if marker.Some? {
        NotBlankFrom(input, marker.value, marker.value);
        r := CutAt(start, marker.value);
      } else {
        r := CutLast(start);
      }
    }

    /** Yields what follows the last marker, unless it is blank, and ends the stream. */
    method CutLast(start: nat) returns (r: Option<Yield>)
      requires Valid() && !exhausted && start <= |input| && !BlankFrom(input, start)
      requires Remaining() == [input[start..|input|]]
      modifies this
      ensures Valid() && Yielded(old(Remaining()), old(yielded), r)
    {
      currentStart, exhausted := None, true;
      if start < |input| && !BlankFrom(input, start) {
        var item := Emit(start, |input|);
        return Some(item);
      }
      return None;
    }

    /** Yields the piece up to the marker and makes the marker the current start. */
    method CutAt(start: nat, marker: nat) returns (r: Option<Yield>)
      requires Valid() && !exhausted && pending.None?
      requires start <= marker < |input| && !BlankFrom(input, marker)
      requires Remaining() == [input[start..marker]] + Rest(input, marker, marker + 3)
      modifies this
      ensures Valid() && Yielded(old(Remaining()), old(yielded), r)
    {
      currentStart, searchFrom := Some(marker), marker + 3;
      assert Remaining() == Rest(input, marker, marker + 3);
      var item := Emit(start, marker);
      return Some(item);
    }
  }

  /** Where a stream starts: the document held back, the one being cut, and where to search on. */
  function StartFields(t: Text, first: Option<nat>): (Option<(nat, nat)>, Option<nat>, nat)
    requires first.Some? ==> first.value <= |t|
  {
    match first
    case None => if IsBlank(t) then (None, None, |t|) else (Some((0, |t|)), None, |t|)
    case Some(m) =>
      if m > 0 && PrologueHasContent(t[..m]) then (Some((0, m)), Some(m), m + 3) else (None, Some(0), m + 3)
  }

  /** The search finds the next cut of the rest. */
  lemma {:induction false} RestFrom(t: Units, start: nat, from: nat)
    requires start <= |t| && start <= from
    ensures var next := NextMarker(t, from);
      Rest(t, start, from) ==
        if next.None? then [t[start..|t|]] else [t[start..next.value]] + Rest(t, next.value, next.value + 3)
    decreases |t| - from
  {
    if from + 3 <= |t| && !IsDocMarkerAt(t, from) {
      RestFrom(t, start, from + 1);
    }
  }

  lemma PiecesOfCons(t: Units, start: nat, c: nat, later: seq<nat>)
    requires start <= |t| && Ascending([c] + later, start, |t|)
    ensures start <= c <= |t| && Ascending(later, c, |t|)
    ensures Pieces(t, start, [c] + later) == [t[start..c]] + Pieces(t, c, later)
  {
    var cuts := [c] + later;
    assert cuts[0] == c && cuts[1..] == later;
  }

  /** The rest is the pieces cut at the markers still to be found. */
  lemma {:induction false} RestIsPieces(t: Units, start: nat, from: nat)
    requires start <= |t| && start < from && Ascending(MarkersFrom(t, from), start, |t|)
    ensures Rest(t, start, from) == Pieces(t, start, MarkersFrom(t, from))
    decreases |t| - from
  {
    if from + 3 > |t| {
      assert t[start..|t|] == t[start..];
    } else if IsDocMarkerAt(t, from) {
      JumpSkipsNone(t, from);
      PiecesOfCons(t, start, from, MarkersFrom(t, from + 3));
      RestIsPieces(t, from, from + 3);
    } else {
      RestIsPieces(t, start, from + 1);
    }
  }

  /** The fields hold exactly the documents of the text. */
  ghost predicate Holds(t: Text, fields: (Option<(nat, nat)>, Option<nat>, nat)) {
    var (pending, start, from) := fields;
    && (pending.Some? ==> pending.value.0 < pending.value.1 <= |t|)
    && Opened(t, start, from)
    && ToCome(t, pending, start, from) == Documents(t)
  }

  /** So do the fields a stream starts with. */
  lemma StartsWithDocuments(t: Text)
    ensures Holds(t, StartFields(t, NextMarker(t, 0)))
  {
    MarkersAfter(t, 0);
    match NextMarker(t, 0)
    case None => StartsWithoutMarker(t);
    case Some(m) => StartsAtMarker(t, m);
  }

  lemma StartsWithoutMarker(t: Text)
    requires MarkersFrom(t, 0) == []
    ensures Holds(t, StartFields(t, None))
  {
    assert t[0..|t|] == t[0..];
    assert [t[0..]] + [] == [t[0..]];
  }

  lemma StartsAtMarker(t: Text, m: nat)
    requires IsDocMarkerAt(t, m) && MarkersFrom(t, 0) == [m] + MarkersFrom(t, m + 3)
    ensures Holds(t, StartFields(t, Some(m)))
  {
    CutsAtMarker(t, m);
    if m > 0 && PrologueHasContent(t[..m]) {
      NotBlankFrom(t, m, m);
      RestIsPieces(t, m, m + 3);
    } else {
      NotBlankFrom(t, m, 0);
      RestIsPieces(t, 0, m + 3);
    }
  }

  lemma CutsAtMarker(t: Text, m: nat)
    requires IsDocMarkerAt(t, m) && MarkersFrom(t, 0) == [m] + MarkersFrom(t, m + 3)
    ensures var later := MarkersFrom(t, m + 3);
      && Ascending(later, m, |t|) && Ascending(later, 0, |t|)
      && Documents(t) ==
         if m > 0 && PrologueHasContent(t[..m]) then [t[0..m]] + Pieces(t, m, later) else Pieces(t, 0, later)
  {
    var later := MarkersFrom(t, m + 3);
    assert ([m] + later)[1..] == later;
    MarkersAscend(t, m + 3, m);
    MarkersAscend(t, m + 3, 0);
    CutsAscend(t);
  }

  lemma {:induction false} CutsAreFew(cuts: seq<nat>, low: nat, high: nat)
    requires Ascending(cuts, low, high) && low < high
    ensures |cuts| < high - low
    decreases |cuts|
  {
    if cuts != [] {
      CutsAreFew(cuts[1..], cuts[0], high);
    }
  }

  /** A text has no more documents than scalars. */
  lemma FewerThanScalars(t: Text)
    ensures |Documents(t)| <= |t|
  {
    CutsAscend(t);
    PiecesJoin(t, 0, Cuts(t));
    if t != [] {
      CutsAreFew(Cuts(t), 0, |t|);
    }
  }

  // ----- the consumers of the stream -----

  /** What a consumer that stops at the budget error makes of the documents `all`. */
  ghost function Budgeted<T>(all: seq<Units>, max: nat, result: T): Result<T, Error> {
    if |all| <= max then Ok(result) else Err(Budget(MaxDocuments(max, max + 1)))
  }

  /** Draws every item, keeping none. */
  method Exhaust(stream: DocumentStream) returns (r: Result<(), Error>)
    requires stream.Valid() && stream.yielded == 0
    modifies stream
    ensures r == Budgeted(old(stream.Remaining()), stream.maxDocuments, ())
  {
    ghost var all := stream.Remaining();
    while true
      invariant stream.Valid() && stream.yielded <= stream.maxDocuments && stream.yielded <= |all|
      invariant stream.Remaining() == all[stream.yielded..]
      decreases |stream.Remaining()|
    {
      var item := stream.Next();
      if item.None? {
        return Ok(());
      }
      if item.value.Err? {
        return Err(item.value.error);
      }
    }
  }

  /** Collects the documents, or the first error. */
  method Collect(stream: DocumentStream) returns (r: Result<seq<Units>, Error>)
    requires stream.Valid() && stream.yielded == 0
    modifies stream
    ensures r == Budgeted(old(stream.Remaining()), stream.maxDocuments, old(stream.Remaining()))
  {
    ghost var all := stream.Remaining();
    var docs := [];
    while true
      invariant stream.Valid() && stream.yielded == |docs| <= stream.maxDocuments && |docs| <= |all|
      invariant docs == all[..|docs|] && stream.Remaining() == all[|docs|..]
      decreases |stream.Remaining()|
    {
      var item := stream.Next();
      if item.None? {
        assert all[..|docs|] == all;
        return Ok(docs);
      }
      if item.value.Err? {
        return Err(item.value.error);
      }
      docs := docs + [item.value.value];
    }
  }

  method ValidateDocumentBudget(text: Text, max: usize) returns (r: Result<(), Error>)
    ensures r == Budgeted(Documents(text), max, ())
  {
    var stream := new DocumentStream(text, max);
    r := Exhaust(stream);
  }

  method SplitDocumentsChecked(text: Text, max: usize) returns (r: Result<seq<Units>, Error>)
    ensures r == Budgeted(Documents(text), max, Documents(text))
  {
    var stream := new DocumentStream(text, max);
    r := Collect(stream);
  }

  /** Without a limit the budget is never reached, so every document is collected. */
  method SplitDocuments(text: Text) returns (docs: seq<Units>)
    ensures docs == Documents(text)
  {
    var stream := new DocumentStream(text, USIZE_MAX);
    FewerThanScalars(text);
    var r := Collect(stream);
    docs := if r.Ok? then r.value else [];
  }
}
