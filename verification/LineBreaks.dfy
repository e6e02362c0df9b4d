/**
  * Line breaks, as documented and as read. Markers are documented to follow a line feed, alone
  * or after a carriage return; the scan takes a lone carriage return as well. The test of the
  * prologue, on the other hand, ends its lines at line feeds only.
  */
module LineBreaks {
  import opened Markers
  import opened Splitting

  // ----- markers -----

  /** `---`, and then the end of input, a line feed, a carriage return, a space or a tab. */
  predicate MarkerBody(b: Units, i: nat) {
    i + 3 <= |b| && b[i..i + 3] == [0x2D, 0x2D, 0x2D] && (i + 3 < |b| ==> b[i + 3] in {0x0A, 0x0D, 0x20, 0x09})
  }

  /** At the start of input, or after LF or CR LF, both of which end in LF. */
  predicate DocumentedMarkerAt(b: Units, i: nat) { MarkerBody(b, i) && (i == 0 || b[i - 1] == 0x0A) }

  /** The scan's own rule, unit by unit. */
  lemma MarkerIsSpelled(b: Units, i: nat)
    ensures IsDocMarkerAt(b, i) <==> MarkerBody(b, i) && (i == 0 || b[i - 1] == 0x0A || b[i - 1] == 0x0D)
  {
    if i + 3 <= |b| {
      assert b[i..i + 3] == [b[i], b[i + 1], b[i + 2]];
    }
  }

  /** The scan takes every documented marker, and beyond those exactly the ones right after a carriage return. */
  lemma MarkersDiffer(b: Units, i: nat)
    ensures DocumentedMarkerAt(b, i) ==> IsDocMarkerAt(b, i)
    ensures IsDocMarkerAt(b, i) && !DocumentedMarkerAt(b, i) <==> i > 0 && MarkerBody(b, i) && b[i - 1] == 0x0D
  {
    MarkerIsSpelled(b, i);
  }

  /** Every carriage return is followed by a line feed. */
  ghost predicate NoLoneReturn(b: Units) {
    forall k :: 0 <= k < |b| && b[k] == 0x0D ==> k + 1 < |b| && b[k + 1] == 0x0A
  }

  ghost predicate MarkersAreDocumented(b: Units) {
    forall i: nat :: IsDocMarkerAt(b, i) <==> DocumentedMarkerAt(b, i)
  }

  ghost predicate MarkerAfterReturn(b: Units, i: nat) { i > 0 && MarkerBody(b, i) && b[i - 1] == 0x0D }

  lemma MarkersAgree(b: Units)
    ensures MarkersAreDocumented(b) <==> forall i: nat :: !MarkerAfterReturn(b, i)
    ensures NoLoneReturn(b) ==> MarkersAreDocumented(b)
  {
    forall i: nat ensures (IsDocMarkerAt(b, i) <==> DocumentedMarkerAt(b, i)) <==> !MarkerAfterReturn(b, i) {
      MarkersDiffer(b, i);
    }
    if NoLoneReturn(b) {
      forall i: nat ensures !MarkerAfterReturn(b, i) {
      }
    }
  }

  // ----- content before the first marker -----

  type Break = nat -> bool

  /** The length of the first line, when lines end where `ends` says. */
  function LineEndBy(t: Units, ends: Break): (n: nat)
    ensures n <= |t|
    ensures n < |t| ==> ends(t[n])
    ensures forall j :: 0 <= j < n ==> !ends(t[j])
  {
    if t == [] || ends(t[0]) then 0 else 1 + LineEndBy(t[1..], ends)
  }

  /** Some line is neither blank, a comment nor a directive. */
  predicate HasContentBy(pre: Units, ends: Break)
    decreases |pre|
  {
    if pre == [] then false
    else
      var n := LineEndBy(pre, ends);
      LineHasContent(pre[..n]) || (n < |pre| && HasContentBy(pre[n + 1..], ends))
  }

  const FEED: Break := (u: nat) => u == 0x0A
  const ANY: Break := (u: nat) => u == 0x0A || u == 0x0D

  /** The characters that Unicode lists as `White_Space`. */
  ghost const WHITE_SPACE: set<nat> := {
    0x0009, 0x000A, 0x000B, 0x000C, 0x000D, 0x0020, 0x0085, 0x00A0, 0x1680, 0x2000, 0x2001, 0x2002, 0x2003, 0x2004,
    0x2005, 0x2006, 0x2007, 0x2008, 0x2009, 0x200A, 0x2028, 0x2029, 0x202F, 0x205F, 0x3000
  }

  lemma WhiteIsListed(u: nat)
    ensures IsWhite(u) <==> u in WHITE_SPACE
  {
  }

  /** A text has no document if and only if it is nothing but white space. */
  lemma BlankTextsHaveNone(t: Units)
    ensures Documents(t) == [] <==> forall i :: 0 <= i < |t| ==> t[i] in WHITE_SPACE
  {
    DocumentsPartition(t);
    BlankMeansAllWhite(t, 0);
    forall i | 0 <= i < |t| ensures IsWhite(t[i]) <==> t[i] in WHITE_SPACE {
      WhiteIsListed(t[i]);
    }
  }

  lemma {:induction false} EndsAtFeeds(t: Units)
    ensures LineEnd(t) == LineEndBy(t, FEED)
    decreases |t|
  {
    if t != [] && t[0] != LF {
      EndsAtFeeds(t[1..]);
    }
  }

  lemma {:induction false} PrologueCutsAtFeeds(pre: Units)
    ensures PrologueHasContent(pre) <==> HasContentBy(pre, FEED)
    decreases |pre|
  {
    if pre != [] {
      EndsAtFeeds(pre);
      var n := LineEnd(pre);
      if n < |pre| {
        PrologueCutsAtFeeds(pre[n + 1..]);
      }
    }
  }

  /** Neither white space nor the `#` of a comment nor the `%` of a directive. */
  ghost predicate ContentAt(t: Units, i: int) {
    0 <= i < |t| && t[i] !in WHITE_SPACE && t[i] != 0x23 && t[i] != 0x25
  }

  /** Only white space stands between `i` and the start of its line. */
  ghost predicate OpensLine(t: Units, i: nat, ends: Break)
    requires i <= |t|
  {
    i == 0 || ends(t[i - 1]) || (t[i - 1] in WHITE_SPACE && OpensLine(t, i - 1, ends))
  }

  /** Content that opens its line. */
  ghost predicate Opening(t: Units, i: int, ends: Break) { ContentAt(t, i) && OpensLine(t, i, ends) }

  lemma {:induction false} OpensInSuffix(t: Units, n: nat, i: nat, ends: Break)
    requires n < |t| && ends(t[n]) && i <= |t| - (n + 1)
    ensures OpensLine(t[n + 1..], i, ends) <==> OpensLine(t, n + 1 + i, ends)
    decreases i
  {
    if i > 0 {
      OpensInSuffix(t, n, i - 1, ends);
      assert t[n + 1..][i - 1] == t[n + 1 + (i - 1)];
    }
  }

  lemma {:induction false} OpensFirstLine(t: Units, i: nat, ends: Break)
    requires i <= |t| && forall j :: 0 <= j < i ==> !ends(t[j])
    ensures OpensLine(t, i, ends) <==> forall j :: 0 <= j < i ==> t[j] in WHITE_SPACE
    decreases i
  {
    if i > 0 {
      OpensFirstLine(t, i - 1, ends);
    }
  }

  ghost predicate FirstContent(line: Units, i: int) {
    ContentAt(line, i) && forall j :: 0 <= j < i ==> line[j] in WHITE_SPACE
  }

  lemma {:induction false} LineContentIsFirst(line: Units)
    ensures LineHasContent(line) <==> exists i :: FirstContent(line, i)
    decreases |line|
  {
    if line != [] {
      var rest := line[1..];
      LineContentIsFirst(rest);
      WhiteIsListed(line[0]);
      if IsWhite(line[0]) {
        if i :| FirstContent(rest, i) {
          assert FirstContent(line, i + 1);
        }
        if i :| FirstContent(line, i) {
          assert FirstContent(rest, i - 1);
        }
      } else {
        assert ContentAt(line, 0) ==> FirstContent(line, 0);
        assert forall i :: FirstContent(line, i) ==> i == 0;
      }
    }
  }

  /** Content in a text, position by position: something that opens a line and is no comment or directive. */
  lemma {:induction false} ContentIsOpening(pre: Units, ends: Break)
    requires forall u :: ends(u) ==> u in WHITE_SPACE
    ensures HasContentBy(pre, ends) <==> exists i :: Opening(pre, i, ends)
    decreases |pre|
  {
    if pre != [] {
      var n := LineEndBy(pre, ends);
      FirstLineOpens(pre, n, ends);
      if n < |pre| {
        ContentIsOpening(pre[n + 1..], ends);
        LaterLinesOpen(pre, n, pre[n + 1..], ends);
      }
      if i :| Opening(pre, i, ends) {
        assert i != n;
      }
    }
  }

  lemma FirstLineOpens(pre: Units, n: nat, ends: Break)
    requires n <= |pre| && forall j :: 0 <= j < n ==> !ends(pre[j])
    ensures LineHasContent(pre[..n]) <==> exists i :: i < n && Opening(pre, i, ends)
  {
    LineContentIsFirst(pre[..n]);
    if i :| FirstContent(pre[..n], i) {
      OpensFirstLine(pre, i, ends);
      assert Opening(pre, i, ends);
    }
    if i :| i < n && Opening(pre, i, ends) {
      OpensFirstLine(pre, i, ends);
      assert FirstContent(pre[..n], i);
    }
  }

  lemma LaterLinesOpen(pre: Units, n: nat, rest: Units, ends: Break)
    requires n < |pre| && ends(pre[n]) && rest == pre[n + 1..]
    ensures (exists i :: Opening(rest, i, ends)) <==> exists i :: i > n && Opening(pre, i, ends)
  {
    if i :| Opening(rest, i, ends) {
      OpensInSuffix(pre, n, i, ends);
      assert Opening(pre, n + 1 + i, ends);
    }
    if i :| i > n && Opening(pre, i, ends) {
      OpensInSuffix(pre, n, i - (n + 1), ends);
      assert Opening(rest, i - (n + 1), ends);
    }
  }

  // ----- where the two readings of the prologue part -----

  /** Going back over white space, a carriage return comes before any line feed. */
  ghost predicate OpensAfterReturn(t: Units, i: nat)
    requires i <= |t|
  {
    i > 0 && (t[i - 1] == 0x0D || (t[i - 1] in WHITE_SPACE && t[i - 1] != 0x0A && OpensAfterReturn(t, i - 1)))
  }

  /** Content on a line that a carriage return opens. */
  ghost predicate ContentAfterReturn(t: Units, i: int) { ContentAt(t, i) && OpensAfterReturn(t, i) }

  lemma {:induction false} OpensByFeedOrReturn(t: Units, i: nat)
    requires i <= |t|
    ensures OpensLine(t, i, ANY) <==> OpensLine(t, i, FEED) || OpensAfterReturn(t, i)
    decreases i
  {
    if i > 0 {
      OpensByFeedOrReturn(t, i - 1);
    }
  }

  lemma {:induction false} ReturnStandsAlone(t: Units, i: nat)
    requires i < |t| && OpensAfterReturn(t, i) && t[i] != LF
    ensures !NoLoneReturn(t)
    decreases i
  {
    if t[i - 1] != CR {
      ReturnStandsAlone(t, i - 1);
    } else {
      assert t[i - 1] == CR && t[i - 1 + 1] != LF;
    }
  }

  /**
    * The prologue test agrees with the one that ends lines at every break if and only if some
    * content opens a line that a line feed begins, or none opens a line that a carriage return
    * begins; in particular on every text whose carriage returns all stand before line feeds.
    */
  lemma PrologueAgrees(pre: Units)
    ensures PrologueHasContent(pre) == HasContentBy(pre, ANY) <==>
      (exists i :: Opening(pre, i, FEED)) || !exists i :: ContentAfterReturn(pre, i)
    ensures NoLoneReturn(pre) ==> PrologueHasContent(pre) == HasContentBy(pre, ANY)
  {
    PrologueCutsAtFeeds(pre);
    ContentIsOpening(pre, FEED);
    ContentIsOpening(pre, ANY);
    forall i | ContentAt(pre, i)
      ensures Opening(pre, i, ANY) <==> Opening(pre, i, FEED) || ContentAfterReturn(pre, i)
    {
      OpensByFeedOrReturn(pre, i);
    }
    if i :| Opening(pre, i, FEED) {
      assert Opening(pre, i, ANY);
    }
    if i :| ContentAfterReturn(pre, i) {
      assert Opening(pre, i, ANY);
      ReturnStandsAlone(pre, i);
    }
  }

  // ----- whole texts -----

  ghost predicate ScannedMarkerAt(t: Units, i: nat) {
    MarkerBody(t, i) && (i == 0 || t[i - 1] == 0x0A || t[i - 1] == 0x0D)
  }

  /**
    * Where a text is cut, unit by unit: at every `---` that a line break or the start comes
    * before and that ends as a marker must, but for a first one in front of which no content
    * opens a line begun by a line feed.
    */
  lemma CutsAreSpelled(t: Units, i: nat)
    ensures i in Cuts(t) <==>
      && ScannedMarkerAt(t, i)
      && ((exists j: nat :: j < i && ScannedMarkerAt(t, j)) || (exists k :: Opening(t[..i], k, FEED)))
  {
    CutsAreMarkers(t, i);
    forall j: nat ensures IsDocMarkerAt(t, j) <==> ScannedMarkerAt(t, j) {
      MarkerIsSpelled(t, j);
    }
    assert FirstMarker(t, i) <==> !exists j: nat :: j < i && ScannedMarkerAt(t, j);
    if IsDocMarkerAt(t, i) {
      PrologueCutsAtFeeds(t[..i]);
      ContentIsOpening(t[..i], FEED);
    }
  }

  ghost predicate FirstDocumented(t: Units, i: nat) { forall j: nat :: j < i ==> !DocumentedMarkerAt(t, j) }

  /** On a text without lone carriage returns the cuts are the documented ones. */
  lemma CutsAreDocumented(t: Units, i: nat)
    requires NoLoneReturn(t)
    ensures i in Cuts(t) <==>
      && DocumentedMarkerAt(t, i)
      && (!FirstDocumented(t, i) || (i > 0 && HasContentBy(t[..i], ANY)))
  {
    CutsAreMarkers(t, i);
    MarkersAgree(t);
    assert FirstMarker(t, i) <==> FirstDocumented(t, i);
    if i > 0 && DocumentedMarkerAt(t, i) {
      assert NoLoneReturn(t[..i]);
      PrologueAgrees(t[..i]);
    }
  }

  const HIDDEN: Units := [HASH, CR, 0x6B]
  const HIDING: Units := [HASH, CR, 0x6B, CR, DASH, DASH, DASH]

  lemma HiddenIsUnseen(pre: Units)
    requires pre == HIDDEN + [CR]
    ensures HasContentBy(pre, ANY) && !PrologueHasContent(pre)
  {
    assert OpensAfterReturn(pre, 2);
    assert ContentAfterReturn(pre, 2);
    assert LineEnd(pre) == 4 && pre[..4] == pre by {
      EndsAtFeeds(pre);
    }
    assert !PrologueHasContent(pre);
    PrologueAgrees(pre);
  }

  lemma MarkersOfHiding(t: Units)
    requires t == HIDING
    ensures MarkersFrom(t, 0) == [4]
  {
    assert MarkersFrom(t, 5) == [];
    assert MarkersFrom(t, 4) == [4];
    assert MarkersFrom(t, 2) == MarkersFrom(t, 3) == MarkersFrom(t, 4);
  }

  /** `#`, a lone return, `k`, a lone return, `---`: the text line is lost to the next document. */
  lemma LoneReturnHidesContent()
    ensures var t := HIDING;
      && IsDocMarkerAt(t, 4) && !DocumentedMarkerAt(t, 4)
      && HasContentBy(t[..4], ANY) && !PrologueHasContent(t[..4])
      && Cuts(t) == [] && Documents(t) == [t]
  {
    var t := HIDING;
    HiddenIsUnseen(t[..4]);
    MarkersOfHiding(t);
    CutsAscend(t);
    assert t[0..] == t;
  }
}
