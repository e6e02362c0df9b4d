/** The texts the decoder takes: white space anywhere, and for the rest exactly which fault is met first. */
module Base64Texts {
  import opened Common
  import opened Base64
  import opened Base64Bits

  /** Space, tab, carriage return and line feed. */
  ghost const SPACES: set<int> := {32, 9, 13, 10}

  lemma SpacesAreListed(b: Byte)
    ensures IsSpace(b) <==> b in SPACES
  {
  }

  // ----- white space anywhere -----

  lemma {:induction false} StripAppend(s: seq<Byte>, t: seq<Byte>)
    ensures Strip(s + t) == Strip(s) + Strip(t)
    decreases |t|
  {
    if t == [] {
      assert s + t == s;
    } else {
      StripAppend(s, Front(t));
      assert Front(s + t) == s + Front(t) && Last(s + t) == Last(t);
    }
  }

  lemma StripOne(b: Byte)
    ensures Strip([b]) == if b in SPACES then [] else [b]
  {
    SpacesAreListed(b);
    assert Front([b]) == [];
    assert Strip([]) == [];
  }

  /** One white-space byte put anywhere into any text changes nothing, not even which error there is. */
  lemma SpaceIsIgnored(before: seq<Byte>, b: Byte, after: seq<Byte>)
    requires b in SPACES
    ensures Decoded(before + [b] + after) == Decoded(before + after)
  {
    StripAppend(before + [b], after);
    StripAppend(before, [b]);
    StripAppend(before, after);
    StripOne(b);
    assert Strip(before) + [] == Strip(before);
  }

  /** `spaced` is `dense` with white space in between. */
  ghost predicate Spaced(dense: seq<Byte>, spaced: seq<Byte>)
    decreases |spaced|
  {
    if spaced == [] then dense == []
    else
      || (Last(spaced) in SPACES && Spaced(dense, Front(spaced)))
      || (dense != [] && Last(dense) == Last(spaced) && Spaced(Front(dense), Front(spaced)))
  }

  lemma {:induction false} SpacedStripsAlike(dense: seq<Byte>, spaced: seq<Byte>)
    requires Spaced(dense, spaced)
    ensures Strip(dense) == Strip(spaced)
    decreases |spaced|
  {
    if spaced != [] {
      SpacesAreListed(Last(spaced));
      if Last(spaced) in SPACES && Spaced(dense, Front(spaced)) {
        SpacedStripsAlike(dense, Front(spaced));
      } else {
        SpacedStripsAlike(Front(dense), Front(spaced));
      }
    }
  }

  /** However a text is spaced out, it decodes alike. */
  lemma SpacedDecodesAlike(dense: seq<Byte>, spaced: seq<Byte>)
    requires Spaced(dense, spaced)
    ensures Decoded(spaced) == Decoded(dense)
  {
    SpacedStripsAlike(dense, spaced);
  }

  lemma {:induction false} StrippedIsSpaced(text: seq<Byte>)
    ensures Spaced(Strip(text), text)
    ensures forall i :: 0 <= i < |Strip(text)| ==> Strip(text)[i] !in SPACES
    decreases |text|
  {
    if text != [] {
      StrippedIsSpaced(Front(text));
      SpacesAreListed(Last(text));
      if !IsSpace(Last(text)) {
        assert Front(Strip(text)) == Strip(Front(text));
      }
    }
  }

  /** What is accepted is an encoding, spaced out; and every encoding is accepted, however it is spaced out. */
  lemma AcceptedIsSpacedEncoding(text: seq<Byte>, bytes: seq<Byte>)
    ensures Decoded(text) == Ok(bytes) <==> Spaced(Encoded(bytes), text)
  {
    if Decoded(text) == Ok(bytes) {
      AcceptsExactlyEncodings(text, bytes);
      StrippedIsSpaced(text);
    }
    if Spaced(Encoded(bytes), text) {
      SpacedDecodesAlike(Encoded(bytes), text);
      DecodeUndoesEncode(bytes);
    }
  }

  // ----- which fault is met -----

  /** The bytes that are not white space. */
  function Dense(text: seq<Byte>): nat {
    if text == [] then 0 else Dense(Front(text)) + if Last(text) in {32, 9, 13, 10} then 0 else 1
  }

  lemma {:induction false} StripKeepsDense(text: seq<Byte>)
    ensures |Strip(text)| == Dense(text)
  {
    if text != [] {
      StripKeepsDense(Front(text));
    }
  }

  /** A text is refused for its length if and only if its bytes, white space aside, are no whole groups of four. */
  lemma LengthIsExact(text: seq<Byte>)
    ensures Decoded(text) == Err(BadLength) <==> Dense(text) % 4 != 0
  {
    StripKeepsDense(text);
    if |Strip(text)| % 4 == 0 {
      var i := FirstFaultIsMet(Strip(text), DecodeGroup);
    }
  }

  ghost function GroupAt(buf: seq<Byte>, i: nat, decode: GroupDecoder): Result<seq<Byte>, DecodeError>
    requires TakesFour(decode) && 4 * i + 4 <= |buf|
  {
    decode(buf[4 * i..4 * i + 4], 4 * i + 4 == |buf|)
  }

  /** The first faulty group decides; without one there is no fault. */
  lemma {:induction false} FirstFaultIsMet(buf: seq<Byte>, decode: GroupDecoder) returns (i: nat)
    requires |buf| % 4 == 0 && TakesFour(decode)
    ensures i <= |buf| / 4
    ensures forall j: nat :: j < i ==> GroupAt(buf, j, decode).Ok?
    ensures if i < |buf| / 4 then GroupAt(buf, i, decode).Err? && DecodedBy(buf, decode) == GroupAt(buf, i, decode)
      else DecodedBy(buf, decode).Ok?
    decreases |buf|
  {
    i := 0;
    if buf != [] {
      assert GroupAt(buf, 0, decode) == decode(buf[..4], |buf| == 4);
      if GroupAt(buf, 0, decode).Ok? {
        var rest := buf[4..];
        var k := FirstFaultIsMet(rest, decode);
        forall j: nat | j < |rest| / 4 ensures GroupAt(buf, j + 1, decode) == GroupAt(rest, j, decode) {
          assert buf[4 * (j + 1)..4 * (j + 1) + 4] == rest[4 * j..4 * j + 4];
        }
        forall j: nat | j < k + 1 ensures GroupAt(buf, j, decode).Ok? {
          if j > 0 {
            assert GroupAt(buf, j - 1 + 1, decode) == GroupAt(rest, j - 1, decode);
          }
        }
        i := k + 1;
      }
    }
  }

  /** The verdict on one group: its alphabet, the bits its padding leaves over, and where padding may stand. */
  lemma GroupVerdict(group: seq<Byte>, final: bool)
    requires |group| == 4
    ensures var r := DecodeGroup(group, final);
      var s0, s1, s2, s3 := SymbolOf(group[0]), SymbolOf(group[1]), SymbolOf(group[2]), SymbolOf(group[3]);
      var pad2, pad3 := group[2] as char == '=', final && group[3] as char == '=';
      if s0.None? || s1.None? then r == Err(BadCharacter)
      else if s2.Some? && s3.Some? then r.Ok? && |r.value| == 3
      else if pad3 && pad2 then if s1.value % 16 != 0 then r == Err(NonCanonical) else r.Ok? && |r.value| == 1
      else if pad3 && s2.Some? then if s2.value % 4 != 0 then r == Err(NonCanonical) else r.Ok? && |r.value| == 2
      else r == Err(BadPadding)
  {
    TableIsStandard(group[0]);
    TableIsStandard(group[1]);
    TableIsStandard(group[2]);
    TableIsStandard(group[3]);
  }

  /** The fault of a text of whole groups is that of its first faulty one. */
  lemma FaultIsTheFirst(text: seq<Byte>) returns (i: nat)
    requires Dense(text) % 4 == 0
    ensures i <= |Strip(text)| / 4
    ensures forall j: nat :: j < i ==> GroupAt(Strip(text), j, DecodeGroup).Ok?
    ensures if i < |Strip(text)| / 4 then
        GroupAt(Strip(text), i, DecodeGroup).Err? && Decoded(text) == GroupAt(Strip(text), i, DecodeGroup)
      else Decoded(text).Ok?
  {
    StripKeepsDense(text);
    i := FirstFaultIsMet(Strip(text), DecodeGroup);
  }

  // ----- bytes that are nothing to the decoder -----

  lemma {:induction false} StripHolds(text: seq<Byte>, b: Byte)
    requires b in text && b !in SPACES
    ensures b in Strip(text)
    decreases |text|
  {
    SpacesAreListed(Last(text));
    if Last(text) != b {
      assert text == Front(text) + [Last(text)];
      StripHolds(Front(text), b);
    }
  }

  /** A byte outside the alphabet that is neither `=` nor white space makes any text refused. */
  lemma OtherBytesAreRefused(text: seq<Byte>, b: Byte)
    requires b in text && SymbolOf(b).None? && b as char != '=' && b !in SPACES
    ensures Decoded(text).Err?
  {
    if Decoded(text).Ok? {
      AcceptsExactlyEncodings(text, Decoded(text).value);
      StripHolds(text, b);
      EncodedIsSymbols(Decoded(text).value, EncodedGroup, b);
    }
  }

  lemma {:induction false} EncodedIsSymbols(bytes: seq<Byte>, encode: seq<Byte> -> seq<Byte>, b: Byte)
    requires encode == EncodedGroup && b in EncodedBy(bytes, encode)
    ensures SymbolOf(b).Some? || b as char == '='
    decreases |bytes|
  {
    if |bytes| <= 3 {
      GroupIsSymbols(bytes, b);
    } else if b in encode(bytes[..3]) {
      GroupIsSymbols(bytes[..3], b);
    } else {
      EncodedIsSymbols(bytes[3..], encode, b);
    }
  }

  lemma GroupIsSymbols(bytes: seq<Byte>, b: Byte)
    requires |bytes| <= 3 && b in EncodedGroup(bytes)
    ensures SymbolOf(b).Some? || b as char == '='
  {
    forall v: nat | v < 64 ensures SymbolOf(Alphabet(v)).Some? {
      AlphabetIsStandard(v);
    }
  }
}
