/** The frames of a whole input: the decoder splits at each boundary it finds and scans on from there. */
module Frames {
  import opened Common
  import opened Markers
  import opened Splitting
  import FrameScanner

  /** Past its first unit, a buffer that starts at `from` reads as the input does. */
  lemma {:induction false} ScansAlike(input: Units, from: nat, i: nat)
    requires from <= |input| && 1 <= i
    ensures var r, whole := NextMarker(input[from..], i), NextMarker(input, from + i);
      r.Some? == whole.Some? && (r.Some? ==> whole.value == from + r.value)
    decreases |input| - from - i
  {
    var buffer := input[from..];
    if i + 3 <= |buffer| {
      assert forall k :: 0 <= k < |buffer| ==> buffer[k] == input[from + k];
      assert IsDocMarkerAt(buffer, i) <==> IsDocMarkerAt(input, from + i);
      if !IsDocMarkerAt(buffer, i) {
        ScansAlike(input, from, i + 1);
      }
    }
  }

  /** Where the frames after the one at `from` start: each is the boundary found in the buffer before it. */
  function Starts(input: Units, from: nat): seq<nat>
    requires from <= |input|
    decreases |input| - from
  {
    var found := NextMarker(input[from..], 1);
    if found.None? then [] else [from + found.value] + Starts(input, from + found.value)
  }

  lemma NextStart(input: Units, from: nat)
    requires from <= |input|
    ensures var next := NextMarker(input, from + 1);
      Starts(input, from) == if next.None? then [] else [next.value] + Starts(input, next.value)
  {
    ScansAlike(input, from, 1);
  }

  /** Splitting at one boundary after another finds every marker, and nothing else. */
  lemma {:induction false} FramesStartAtMarkers(input: Units, from: nat)
    requires from <= |input|
    ensures Starts(input, from) == MarkersFrom(input, from + 1)
    decreases |input| - from
  {
    NextStart(input, from);
    MarkersAfter(input, from + 1);
    var next := NextMarker(input, from + 1);
    if next.Some? {
      JumpSkipsNone(input, next.value);
      FramesStartAtMarkers(input, next.value);
    }
  }

  lemma FirstStart(input: Units, from: nat)
    requires from <= |input|
    ensures var starts, found := MarkersFrom(input, from + 1), NextMarker(input[from..], 1);
      if found.None? then starts == [] else starts != [] && starts[0] == from + found.value
  {
    FramesStartAtMarkers(input, from);
  }

  /** However the rest of the input arrives, the frame at `from` ends where the next one starts. */
  lemma FrameEndsAtNextStart(
      input: Units, from: nat, chunks: seq<Units>, answers: seq<Option<nat>>, eof: Option<nat>)
    requires from <= |input| && FrameScanner.Joined(chunks) == input[from..]
    requires FrameScanner.Frame(chunks, answers, eof)
    ensures var starts := MarkersFrom(input, from + 1);
      && (eof == if starts == [] then None else Some(starts[0] - from))
      && forall i :: 0 <= i < |chunks| && answers[i].Some? ==> answers[i] == eof
  {
    FrameScanner.AnyChunkingFindsTheBoundary(chunks, answers, eof);
    FirstStart(input, from);
  }
}
