/** The resumable scan of the framed decoder: it never rescans what is already decided. */
module FrameScanner {
  import opened Common
  import opened Markers

  class Scanner {
    var scanned: nat
    /** The buffer of this frame at the previous call. */
    ghost var frame: Units

    constructor ()
      ensures scanned == 0 && frame == [] && Valid()
    {
      scanned, frame := 0, [];
    }

    /** Every position before the cursor is decided, and is no boundary. */
    ghost predicate Valid()
      reads this
    {
      && scanned <= |frame|
      && forall j: nat :: 1 <= j < scanned ==> Decided(frame, j, false) && !IsDocMarkerAt(frame, j)
    }

    /** After a document is split off, the buffer starts a new frame. */
    method StartFrame()
      modifies this
      ensures scanned == 0 && frame == [] && Valid()
    {
      scanned, frame := 0, [];
    }

    /** A growing buffer continues the frame; one shorter than the cursor starts a new frame. */
    method NextBoundary(bytes: Units, atEof: bool) returns (found: Option<nat>)
      requires Valid() && (frame <= bytes || |bytes| < scanned)
      modifies this
      ensures IsNextDecided(bytes, 1, atEof, found)
      ensures frame == bytes
      ensures found.None? && !atEof ==> Valid()
      ensures found.None? ==> forall j: nat :: 1 <= j < scanned ==> !IsDocMarkerAt(bytes, j)
    {
      if scanned > |bytes| {
        scanned := 0;
      } else {
        forall j: nat | 1 <= j < scanned
          ensures Decided(bytes, j, false) && !IsDocMarkerAt(bytes, j)
        {
          DecidedIsStable(frame, bytes, j);
        }
      }
      frame := bytes;
      found := NextMarkerAfterStreaming(bytes, scanned, atEof);
      if found.None? {
        var tail := if atEof then 2 else 3;
        scanned := Max(scanned, SatSub(|bytes|, tail));
      }
    }
  }

  // ----- any chunking of an input finds the boundary of the whole input -----

  /** What one call finds on the buffered prefix. */
  ghost predicate Calls(buffer: Units, atEof: bool, found: Option<nat>) { IsNextDecided(buffer, 1, atEof, found) }

  function Joined(chunks: seq<Units>): Units {
    if chunks == [] then [] else Joined(Front(chunks)) + Last(chunks)
  }

  /**
    * A whole frame: the decoder is called on every arrival until it finds a boundary, and once
    * more at the end of input. `answers` are what those calls returned.
    */
  ghost predicate Frame(chunks: seq<Units>, answers: seq<Option<nat>>, eof: Option<nat>) {
    && |answers| == |chunks|
    && (forall i :: 0 <= i < |chunks| ==> Calls(Joined(chunks[..i + 1]), false, answers[i]))
    && Calls(Joined(chunks), true, eof)
  }

  lemma {:induction false} JoinedPrefix(chunks: seq<Units>, i: nat)
    requires i <= |chunks|
    ensures Joined(chunks[..i]) <= Joined(chunks)
    decreases |chunks|
  {
    if i < |chunks| {
      JoinedPrefix(Front(chunks), i);
      assert Front(chunks)[..i] == chunks[..i];
    } else {
      assert chunks[..i] == chunks;
    }
  }

  /** Whichever call answers first, the answer is the batch scan's; if none does, there is no boundary. */
  lemma AnyChunkingFindsTheBoundary(chunks: seq<Units>, answers: seq<Option<nat>>, eof: Option<nat>)
    requires Frame(chunks, answers, eof)
    ensures forall i :: 0 <= i < |chunks| && answers[i].Some? ==> answers[i] == NextMarker(Joined(chunks), 1)
    ensures eof == NextMarker(Joined(chunks), 1)
  {
    EofIsBatch(Joined(chunks), 1, eof);
    forall i | 0 <= i < |chunks| && answers[i].Some? ensures answers[i] == NextMarker(Joined(chunks), 1) {
      assert Calls(Joined(chunks[..i + 1]), false, answers[i]);
      JoinedPrefix(chunks, i + 1);
      ChunkNeverContradicts(Joined(chunks[..i + 1]), Joined(chunks), 1, answers[i]);
    }
  }
}
