/** Which documents a text splits into. */
module Splitting {
  import opened Common
  import opened Errors
  import opened Markers

  /** The scalar values of a string; a string is shorter than the address space. */
  type Text = t: Units | |t| < USIZE_MAX

  /** Unicode `White_Space`, as `str::trim` strips it. */
  predicate IsWhite(u: nat) {
    || 0x9 <= u <= 0xD || u == 0x20 || u == 0x85 || u == 0xA0 || u == 0x1680
    || 0x2000 <= u <= 0x200A || u == 0x2028 || u == 0x2029 || u == 0x202F || u == 0x205F || u == 0x3000
  }

  /** Whether trimming `t[from..]` leaves nothing; from either end comes to the same. */
  predicate BlankFrom(t: Units, from: nat)
    decreases |t| - from
  {
    from >= |t| || (IsWhite(t[from]) && BlankFrom(t, from + 1))
  }

  predicate IsBlank(t: Units) { BlankFrom(t, 0) }

  lemma {:induction false} BlankMeansAllWhite(t: Units, from: nat)
    ensures BlankFrom(t, from) <==> forall i :: from <= i < |t| ==> IsWhite(t[i])
    decreases |t| - from
  {
    if from < |t| {
      BlankMeansAllWhite(t, from + 1);
    }
  }

  /** A text with a marker at or after `start` is not blank from there. */
  lemma {:induction false} NotBlankFrom(t: Units, m: nat, start: nat)
    requires IsDocMarkerAt(t, m) && start <= m
    ensures !BlankFrom(t, start)
    decreases m - start
  {
    if start < m {
      NotBlankFrom(t, m, start + 1);
    }
  }

  const HASH := 0x23
  const PERCENT := 0x25

  /** A line that is neither blank, a comment nor a directive. */
  predicate LineHasContent(line: Units) {
    if line == [] then false
    else if IsWhite(line[0]) then LineHasContent(line[1..])
    else line[0] != HASH && line[0] != PERCENT
  }

  /** `str::lines` cuts at line feeds only; a carriage return before one is trimmed anyway. */
  function LineEnd(t: Units): (n: nat)
    ensures n <= |t|
  {
    if t == [] || t[0] == LF then 0 else 1 + LineEnd(t[1..])
  }

  predicate PrologueHasContent(pre: Units)
    decreases |pre|
  {
    if pre == [] then false
    else
      var n := LineEnd(pre);
      LineHasContent(pre[..n]) || (n < |pre| && PrologueHasContent(pre[n + 1..]))
  }

  /** Every marker position from `from` on, in order. */
  function MarkersFrom(t: Units, from: nat): (markers: seq<nat>)
    ensures forall i :: 0 <= i < |markers| ==> from <= markers[i] && markers[i] + 3 <= |t|
    decreases |t| - from
  {
    if from + 3 > |t| then []
    else if IsDocMarkerAt(t, from) then [from] + MarkersFrom(t, from + 1)
    else MarkersFrom(t, from + 1)
  }

  /** Where the text is cut: at every marker but one that opens the first document. */
  function Cuts(t: Units): seq<nat> { CutsAmong(t, MarkersFrom(t, 0)) }

  function CutsAmong(t: Units, m: seq<nat>): seq<nat>
    requires m != [] ==> m[0] <= |t|
  {
    if m == [] then []
    else if m[0] > 0 && PrologueHasContent(t[..m[0]]) then m
    else m[1..]
  }

  ghost predicate Ascending(cuts: seq<nat>, low: nat, high: nat) {
    cuts == [] || (low < cuts[0] < high && Ascending(cuts[1..], cuts[0], high))
  }

  /** The pieces of `t` from `start` on, cut at `cuts`. */
  function Pieces(t: Units, start: nat, cuts: seq<nat>): seq<Units>
    requires start <= |t| && Ascending(cuts, start, |t|)
    decreases |cuts|
  {
    if cuts == [] then [t[start..]] else [t[start..cuts[0]]] + Pieces(t, cuts[0], cuts[1..])
  }

  lemma {:induction false} MarkersAreMarkers(t: Units, from: nat, i: nat)
    requires i < |MarkersFrom(t, from)|
    ensures from <= MarkersFrom(t, from)[i] && IsDocMarkerAt(t, MarkersFrom(t, from)[i])
    decreases |t| - from
  {
    if !IsDocMarkerAt(t, from) {
      MarkersAreMarkers(t, from + 1, i);
    } else if i > 0 {
      MarkersAreMarkers(t, from + 1, i - 1);
    }
  }

  lemma {:induction false} MarkersAreListed(t: Units, from: nat, j: nat)
    requires from <= j && IsDocMarkerAt(t, j)
    ensures j in MarkersFrom(t, from)
    decreases |t| - from
  {
    if from < j {
      MarkersAreListed(t, from + 1, j);
    }
  }

  lemma {:induction false} MarkersIncrease(t: Units, from: nat, i: nat, j: nat)
    requires i < j < |MarkersFrom(t, from)|
    ensures MarkersFrom(t, from)[i] < MarkersFrom(t, from)[j]
    decreases |t| - from
  {
    if !IsDocMarkerAt(t, from) {
      MarkersIncrease(t, from + 1, i, j);
    } else if i > 0 {
      MarkersIncrease(t, from + 1, i - 1, j - 1);
    }
  }

  lemma MarkersAreExact(t: Units, from: nat)
    ensures forall i :: 0 <= i < |MarkersFrom(t, from)| ==>
      from <= MarkersFrom(t, from)[i] && IsDocMarkerAt(t, MarkersFrom(t, from)[i])
    ensures forall j: nat :: from <= j && IsDocMarkerAt(t, j) ==> j in MarkersFrom(t, from)
    ensures forall i, j :: 0 <= i < j < |MarkersFrom(t, from)| ==> MarkersFrom(t, from)[i] < MarkersFrom(t, from)[j]
  {
    var m := MarkersFrom(t, from);
    forall i | 0 <= i < |m| ensures from <= m[i] && IsDocMarkerAt(t, m[i]) {
      MarkersAreMarkers(t, from, i);
    }
    forall j: nat | from <= j && IsDocMarkerAt(t, j) ensures j in m {
      MarkersAreListed(t, from, j);
    }
    forall i, j | 0 <= i < j < |m| ensures m[i] < m[j] {
      MarkersIncrease(t, from, i, j);
    }
  }

  lemma {:induction false} MarkersAscend(t: Units, from: nat, low: nat)
    requires low < from
    ensures Ascending(MarkersFrom(t, from), low, |t|)
    decreases |t| - from
  {
    if from + 3 <= |t| {
      if IsDocMarkerAt(t, from) {
        MarkersAscend(t, from + 1, from);
        var later := MarkersFrom(t, from + 1);
        assert ([from] + later)[1..] == later;
      } else {
        MarkersAscend(t, from + 1, low);
      }
    }
  }

  lemma AmongAscend(t: Units, m: nat, later: seq<nat>, all: seq<nat>)
    requires IsDocMarkerAt(t, m) && Ascending(later, m, |t|) && Ascending(later, 0, |t|) && all == [m] + later
    ensures Ascending(CutsAmong(t, all), 0, |t|)
  {
    assert all[0] == m && all[1..] == later;
  }

  lemma CutsAmongAscend(t: Units, next: Option<nat>, all: seq<nat>)
    requires next.None? ==> all == []
    requires next.Some? ==> IsDocMarkerAt(t, next.value) && all == [next.value] + MarkersFrom(t, next.value + 3)
    ensures Ascending(CutsAmong(t, all), 0, |t|)
  {
    if next.Some? {
      var later := MarkersFrom(t, next.value + 3);
      MarkersAscend(t, next.value + 3, 0);
      MarkersAscend(t, next.value + 3, next.value);
      AmongAscend(t, next.value, later, all);
    }
  }

  lemma CutsAscend(t: Units)
    ensures Ascending(Cuts(t), 0, |t|)
  {
    MarkersAfter(t, 0);
    CutsAmongAscend(t, NextMarker(t, 0), MarkersFrom(t, 0));
  }

  /** The documents of a text: none when it is blank, otherwise the pieces between the cuts. */
  function Documents(t: Units): seq<Units> {
    CutsAscend(t);
    if MarkersFrom(t, 0) == [] && IsBlank(t) then [] else Pieces(t, 0, Cuts(t))
  }

  // ----- the documents partition the text -----

  function Joined(pieces: seq<Units>): Units {
    if pieces == [] then [] else pieces[0] + Joined(pieces[1..])
  }

  lemma {:induction false} PiecesJoin(t: Units, start: nat, cuts: seq<nat>)
    requires start <= |t| && Ascending(cuts, start, |t|)
    ensures Joined(Pieces(t, start, cuts)) == t[start..]
    ensures |Pieces(t, start, cuts)| == |cuts| + 1
    decreases |cuts|
  {
    if cuts == [] {
      assert [t[start..]][1..] == [];
      assert Joined([t[start..]]) == t[start..] + [];
    } else {
      PiecesJoin(t, cuts[0], cuts[1..]);
      assert Pieces(t, start, cuts)[1..] == Pieces(t, cuts[0], cuts[1..]);
      assert t[start..cuts[0]] + t[cuts[0]..] == t[start..];
    }
  }

  lemma {:induction false} PieceStarts(t: Units, start: nat, cuts: seq<nat>, i: nat)
    requires start <= |t| && Ascending(cuts, start, |t|) && i <= |cuts|
    ensures |Pieces(t, start, cuts)| == |cuts| + 1
    ensures var from := if i == 0 then start else cuts[i - 1]; var to := if i == |cuts| then |t| else cuts[i];
      from <= to <= |t| && Pieces(t, start, cuts)[i] == t[from..to]
    decreases |cuts|
  {
    if cuts != [] {
      PiecesJoin(t, start, cuts);
      if i > 0 {
        PieceStarts(t, cuts[0], cuts[1..], i - 1);
        assert Pieces(t, start, cuts)[i] == Pieces(t, cuts[0], cuts[1..])[i - 1];
      }
    }
  }

  /** Nothing is lost or repeated: a text with anything in it is its documents, end to end. */
  lemma DocumentsPartition(t: Units)
    ensures !IsBlank(t) ==> Joined(Documents(t)) == t
    ensures IsBlank(t) ==> Documents(t) == []
  {
    MarkersAreExact(t, 0);
    CutsAscend(t);
    PiecesJoin(t, 0, Cuts(t));
    assert t[0..] == t;
    if IsBlank(t) && MarkersFrom(t, 0) != [] {
      NotBlankFrom(t, MarkersFrom(t, 0)[0], 0);
    }
  }

  /** The documents of a text that is not blank run from one cut to the next, all of them in order. */
  lemma DocumentsAreCut(t: Units, k: nat)
    requires !IsBlank(t) && k <= |Cuts(t)|
    ensures |Documents(t)| == |Cuts(t)| + 1
    ensures var from := if k == 0 then 0 else Cuts(t)[k - 1]; var to := if k == |Cuts(t)| then |t| else Cuts(t)[k];
      from < to <= |t| && Documents(t)[k] == t[from..to]
  {
    CutsAscend(t);
    PieceStarts(t, 0, Cuts(t), k);
    AscendsAt(0, Cuts(t), |t|, k);
  }

  lemma {:induction false} AscendsAt(low: nat, cuts: seq<nat>, high: nat, k: nat)
    requires Ascending(cuts, low, high) && k <= |cuts| && low < high
    ensures (if k == 0 then low else cuts[k - 1]) < (if k == |cuts| then high else cuts[k])
    decreases |cuts|
  {
    if k > 0 {
      AscendsAt(cuts[0], cuts[1..], high, k - 1);
    }
  }

  /** The first marker of the text, when there is one, decides what is cut. */
  lemma CutsFromMarkers(t: Units, i: nat)
    requires MarkersFrom(t, 0) != []
    ensures var m := MarkersFrom(t, 0); i in Cuts(t) <==>
      i in m && (i > m[0] || (i > 0 && PrologueHasContent(t[..m[0]])))
  {
    MarkersAreExact(t, 0);
    var m := MarkersFrom(t, 0);
    assert m == [m[0]] + m[1..];
  }

  /**
    * The cut points are exactly the markers, except a first marker at the very start or after
    * nothing but comments, directives and blank lines.
    */
  lemma CutsAreMarkers(t: Units, i: nat)
    ensures i in Cuts(t) <==> IsDocMarkerAt(t, i) && (!FirstMarker(t, i) || (i > 0 && PrologueHasContent(t[..i])))
  {
    MarkersAreExact(t, 0);
    var m := MarkersFrom(t, 0);
    if m != [] {
      CutsFromMarkers(t, i);
      assert IsDocMarkerAt(t, m[0]);
      assert forall k :: 0 < k < |m| ==> m[0] < m[k];
    }
  }

  ghost predicate FirstMarker(t: Units, i: nat) { forall j: nat :: j < i ==> !IsDocMarkerAt(t, j) }

  lemma CutIsMarker(t: Units, k: nat)
    requires k < |Cuts(t)|
    ensures IsDocMarkerAt(t, Cuts(t)[k]) && (k + 1 < |Cuts(t)| ==> Cuts(t)[k] + 4 <= Cuts(t)[k + 1])
  {
    MarkersAreExact(t, 0);
    CutsAscend(t);
    var m := MarkersFrom(t, 0);
    assert Cuts(t) == m || Cuts(t) == m[1..];
    if k + 1 < |Cuts(t)| {
      MarkersAreApart(t, Cuts(t)[k], Cuts(t)[k + 1]);
    }
  }

  /** Every document but the first begins with its marker, and none is empty. */
  lemma DocumentsBeginWithMarkers(t: Units, i: nat)
    requires i < |Documents(t)|
    ensures Documents(t)[i] != [] && (i > 0 ==> |Documents(t)[i]| >= 3 && Documents(t)[i][..3] == [DASH, DASH, DASH])
  {
    CutsAscend(t);
    var cuts := Cuts(t);
    PiecesJoin(t, 0, cuts);
    PieceStarts(t, 0, cuts, i);
    if i > 0 {
      CutIsMarker(t, i - 1);
      BeginsWithDashes(t, cuts[i - 1], if i == |cuts| then |t| else cuts[i]);
    }
  }

  lemma BeginsWithDashes(t: Units, from: nat, to: nat)
    requires IsDocMarkerAt(t, from) && from + 3 <= to <= |t|
    ensures |t[from..to]| >= 3 && t[from..to][..3] == [DASH, DASH, DASH]
  {
  }

  /** Jumping over the three dashes of a marker skips no other marker. */
  lemma JumpSkipsNone(t: Units, m: nat)
    requires IsDocMarkerAt(t, m)
    ensures MarkersFrom(t, m + 1) == MarkersFrom(t, m + 3)
  {
    assert !IsDocMarkerAt(t, m + 1) && !IsDocMarkerAt(t, m + 2);
    assert MarkersFrom(t, m + 1) == MarkersFrom(t, m + 2);
  }

  lemma {:induction false} MarkersAfter(t: Units, start: nat)
    ensures var next := NextMarker(t, start);
      MarkersFrom(t, start) == if next.None? then [] else [next.value] + MarkersFrom(t, next.value + 3)
    decreases |t| - start
  {
    if start + 3 <= |t| {
      if IsDocMarkerAt(t, start) {
        JumpSkipsNone(t, start);
      } else {
        MarkersAfter(t, start + 1);
      }
    }
  }

  // ----- the document budget -----

  type Yield = Result<Units, Error>

  /** What a stream with limit `max` yields in all, having yielded `yielded` already. */
  function Yields(docs: seq<Units>, yielded: nat, max: nat): seq<Yield>
    decreases |docs|
  {
    if docs == [] then []
    else if yielded + 1 > max then [Err(Budget(MaxDocuments(max, yielded + 1)))]
    else [Ok(docs[0])] + Yields(docs[1..], yielded + 1, max)
  }

  /** With k documents and limit n: the first min(k, n), then one error observing n + 1 exactly when k > n. */
  lemma {:induction false} YieldsAreBudgeted(docs: seq<Units>, yielded: nat, max: nat)
    requires yielded <= max
    ensures var n := Min(|docs|, max - yielded); var all := Yields(docs, yielded, max);
      && |all| == n + (if |docs| > max - yielded then 1 else 0)
      && (forall i :: 0 <= i < n ==> all[i] == Ok(docs[i]))
      && (|docs| > max - yielded ==> all[n] == Err(Budget(MaxDocuments(max, max + 1))))
    decreases |docs|
  {
    if docs != [] && yielded < max {
      YieldsAreBudgeted(docs[1..], yielded + 1, max);
    }
  }
}
