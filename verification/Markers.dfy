/** Column-0 `---` markers in a sequence of code units: bytes, or the scalar values of a string. */
module Markers {
  import opened Common

  const DASH := 0x2D
  const LF := 0x0A
  const CR := 0x0D
  const SPACE := 0x20
  const TAB := 0x09

  type Units = seq<nat>

  predicate IsBreak(u: nat) { u == LF || u == CR }

  predicate EndsMarker(u: nat) { u == LF || u == CR || u == SPACE || u == TAB }

  predicate Dashes(b: Units, i: nat) { i + 3 <= |b| && b[i] == b[i + 1] == b[i + 2] == DASH }

  predicate IsDocMarkerAt(b: Units, i: nat) {
    && Dashes(b, i)
    && (i == 0 || IsBreak(b[i - 1]))
    && (i + 3 == |b| || EndsMarker(b[i + 3]))
  }

  /** `r` is the least marker at or after `start`, or there is none. */
  ghost predicate IsNext(b: Units, start: nat, r: Option<nat>) {
    match r
    case Some(i) => start <= i && IsDocMarkerAt(b, i) && forall j: nat :: start <= j < i ==> !IsDocMarkerAt(b, j)
    case None => forall j: nat :: start <= j ==> !IsDocMarkerAt(b, j)
  }

  /** The least marker at or after `start`. */
  function NextMarker(b: Units, start: nat): (r: Option<nat>)
    ensures r.Some? ==> start <= r.value && IsDocMarkerAt(b, r.value)
    decreases |b| - start
  {
    if start + 3 > |b| then None else if IsDocMarkerAt(b, start) then Some(start) else NextMarker(b, start + 1)
  }

  lemma {:induction false} NextMarkerIsLeast(b: Units, start: nat)
    ensures var r := NextMarker(b, start);
      forall j: nat :: start <= j && (r.Some? ==> j < r.value) ==> !IsDocMarkerAt(b, j)
    decreases |b| - start
  {
    if start + 3 <= |b| && !IsDocMarkerAt(b, start) {
      NextMarkerIsLeast(b, start + 1);
    }
  }

  /** It is indeed the least, and the only answer with that property. */
  lemma NextMarkerIsNext(b: Units, start: nat, r: Option<nat>)
    ensures IsNext(b, start, r) <==> r == NextMarker(b, start)
  {
    NextMarkerIsLeast(b, start);
  }

  method MarkerAtOrAfter(b: Units, start: nat) returns (r: Option<nat>)
    ensures r == NextMarker(b, start)
  {
    var i := start;
    while i + 3 <= |b|
      invariant start <= i && NextMarker(b, start) == NextMarker(b, i)
      decreases |b| - i
    {
      if IsDocMarkerAt(b, i) {
        return Some(i);
      }
      i := i + 1;
    }
    return None;
  }

  method NextMarkerAfter(b: Units, start: nat) returns (r: Option<nat>)
    ensures r == NextMarker(b, Max(start, 1))
  {
    r := MarkerAtOrAfter(b, Max(start, 1));
  }

  /** The positions a scan may already decide: before the end of input a marker needs its lookahead byte. */
  predicate Decided(b: Units, i: nat, atEof: bool) { if atEof then i + 3 <= |b| else i + 4 <= |b| }

  /** `r` is the least decided marker at or after `start`, or no decided position is one. */
  ghost predicate IsNextDecided(b: Units, start: nat, atEof: bool, r: Option<nat>) {
    match r
    case Some(i) =>
      && start <= i && Decided(b, i, atEof) && IsDocMarkerAt(b, i)
      && forall j: nat :: start <= j < i ==> !IsDocMarkerAt(b, j)
    case None => forall j: nat :: start <= j && Decided(b, j, atEof) ==> !IsDocMarkerAt(b, j)
  }

  method NextMarkerAfterStreaming(b: Units, start: nat, atEof: bool) returns (r: Option<nat>)
    ensures IsNextDecided(b, Max(start, 1), atEof, r)
  {
    var i := Max(start, 1);
    while i + 3 <= |b|
      invariant Max(start, 1) <= i
      invariant forall j: nat :: Max(start, 1) <= j < i ==> !IsDocMarkerAt(b, j)
      decreases |b| - i
    {
      if !atEof && i + 3 == |b| {
        break;
      }
      if IsDocMarkerAt(b, i) {
        return Some(i);
      }
      i := i + 1;
    }
    return None;
  }

  /** What is decided on a prefix stays decided, alike. */
  lemma DecidedIsStable(p: Units, whole: Units, i: nat)
    requires p <= whole && Decided(p, i, false)
    ensures IsDocMarkerAt(p, i) <==> IsDocMarkerAt(whole, i)
  {
    assert forall j :: 0 <= j < |p| ==> p[j] == whole[j];
  }

  /** Scanning a prefix never contradicts scanning the whole input. */
  lemma ChunkNeverContradicts(p: Units, whole: Units, start: nat, r: Option<nat>)
    requires p <= whole && IsNextDecided(p, start, false, r)
    ensures r.Some? ==> r == NextMarker(whole, start)
    ensures r.None? ==> forall j: nat :: start <= j && Decided(p, j, false) ==> !IsDocMarkerAt(whole, j)
  {
    forall j: nat | Decided(p, j, false) ensures IsDocMarkerAt(p, j) <==> IsDocMarkerAt(whole, j) {
      DecidedIsStable(p, whole, j);
    }
    NextMarkerIsNext(whole, start, r);
  }

  /** Before the end of input an answer has its look-ahead unit, and a marker that has it is not passed over. */
  lemma LookaheadDecides(b: Units, start: nat, r: Option<nat>, i: nat)
    requires IsNextDecided(b, start, false, r)
    ensures r.Some? ==> start <= r.value && r.value + 3 < |b|
    ensures start <= i && i + 3 < |b| && IsDocMarkerAt(b, i) ==> r.Some? && r.value <= i
  {
  }

  /** At the end of input the streaming scan is the batch scan. */
  lemma EofIsBatch(b: Units, start: nat, r: Option<nat>)
    ensures IsNextDecided(b, start, true, r) <==> r == NextMarker(b, start)
  {
    NextMarkerIsNext(b, start, r);
  }

  /** Two markers are at least four apart, so a scan may jump over the three dashes. */
  lemma MarkersAreApart(b: Units, i: nat, j: nat)
    requires IsDocMarkerAt(b, i) && IsDocMarkerAt(b, j) && i < j
    ensures i + 4 <= j
  {
  }
}
