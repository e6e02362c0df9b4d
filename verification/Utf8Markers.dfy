/** Byte offsets and scalar positions of a string mark the same boundaries. */
module Utf8Markers {
  import opened Common
  import opened Markers

  /** One scalar value in UTF-8. */
  function Encode(u: nat): (e: Units)
    ensures u < 0x80 ==> e == [u]
    ensures u >= 0x80 ==> |e| >= 2 && forall i :: 0 <= i < |e| ==> e[i] >= 0x80
  {
    if u < 0x80 then [u]
    else if u < 0x800 then [0xC0 + u / 0x40, 0x80 + u % 0x40]
    else if u < 0x1_0000 then [0xE0 + u / 0x1000, 0x80 + u / 0x40 % 0x40, 0x80 + u % 0x40]
    else [0xF0 + u / 0x4_0000, 0x80 + u / 0x1000 % 0x40, 0x80 + u / 0x40 % 0x40, 0x80 + u % 0x40]
  }

  type Encoding = nat -> Units

  /** All the scan relies on: ASCII stands for itself and occurs in no other scalar's bytes. */
  ghost predicate AsciiTransparent(enc: Encoding) {
    forall u: nat ::
      && (u < 0x80 ==> enc(u) == [u])
      && (u >= 0x80 ==> |enc(u)| >= 2 && forall i :: 0 <= i < |enc(u)| ==> enc(u)[i] >= 0x80)
  }

  function Bytes(enc: Encoding, text: Units): Units {
    if text == [] then [] else Bytes(enc, Front(text)) + enc(Last(text))
  }

  /** The byte offset of the scalar at `k`. */
  function Offset(enc: Encoding, text: Units, k: nat): nat
    requires k <= |text|
  {
    if k == 0 then 0 else Offset(enc, text, k - 1) + |enc(text[k - 1])|
  }

  lemma {:induction false} OffsetInPrefix(enc: Encoding, text: Units, k: nat)
    requires k < |text|
    ensures Offset(enc, Front(text), k) == Offset(enc, text, k)
  {
    if k > 0 {
      OffsetInPrefix(enc, text, k - 1);
    }
  }

  lemma {:induction false} OffsetOfEnd(enc: Encoding, text: Units)
    ensures Offset(enc, text, |text|) == |Bytes(enc, text)|
    decreases |text|
  {
    if text != [] {
      OffsetOfEnd(enc, Front(text));
      OffsetInPrefix(enc, text, |text| - 1);
    }
  }

  /** The bytes of scalar `k` stand at its offset. */
  lemma {:induction false} BytesAt(enc: Encoding, text: Units, k: nat)
    requires k < |text|
    ensures Offset(enc, text, k) + |enc(text[k])| <= |Bytes(enc, text)|
    ensures forall i :: 0 <= i < |enc(text[k])| ==> Bytes(enc, text)[Offset(enc, text, k) + i] == enc(text[k])[i]
    decreases |text|
  {
    OffsetInPrefix(enc, text, k);
    if k < |text| - 1 {
      BytesAt(enc, Front(text), k);
    } else {
      OffsetOfEnd(enc, Front(text));
    }
  }

  /** A byte below 0x80 is a scalar of its own. */
  lemma {:induction false} AsciiIsAlone(enc: Encoding, text: Units, o: nat) returns (k: nat)
    requires AsciiTransparent(enc)
    requires o < |Bytes(enc, text)| && Bytes(enc, text)[o] < 0x80
    ensures k < |text| && o == Offset(enc, text, k) && text[k] == Bytes(enc, text)[o]
    decreases |text|
  {
    var front := Bytes(enc, Front(text));
    if o < |front| {
      k := AsciiIsAlone(enc, Front(text), o);
      OffsetInPrefix(enc, text, k);
    } else {
      assert Bytes(enc, text)[o] == enc(Last(text))[o - |front|];
      k := |text| - 1;
      OffsetOfEnd(enc, Front(text));
      OffsetInPrefix(enc, text, k);
    }
  }

  /** The first and last byte of scalar `k`: the scalar itself, or no ASCII at all. */
  lemma EdgeBytes(enc: Encoding, text: Units, k: nat)
    requires AsciiTransparent(enc)
    requires k < |text|
    ensures Offset(enc, text, k) < Offset(enc, text, k + 1) <= |Bytes(enc, text)|
    ensures
      var first, last := Bytes(enc, text)[Offset(enc, text, k)], Bytes(enc, text)[Offset(enc, text, k + 1) - 1];
      if text[k] < 0x80 then first == last == text[k] && Offset(enc, text, k + 1) == Offset(enc, text, k) + 1
      else first >= 0x80 && last >= 0x80
  {
    BytesAt(enc, text, k);
    var n := |enc(text[k])|;
    assert Offset(enc, text, k + 1) - 1 == Offset(enc, text, k) + (n - 1);
    assert Bytes(enc, text)[Offset(enc, text, k) + 0] == enc(text[k])[0];
    assert Bytes(enc, text)[Offset(enc, text, k) + (n - 1)] == enc(text[k])[n - 1];
  }

  /** At corresponding places the two scans read alike. */
  lemma SameByte(enc: Encoding, text: Units, k: nat, ascii: nat)
    requires AsciiTransparent(enc)
    requires k <= |text| && ascii < 0x80
    ensures Offset(enc, text, k) <= |Bytes(enc, text)|
    ensures Offset(enc, text, k) == |Bytes(enc, text)| <==> k == |text|
    ensures (k < |text| && text[k] == ascii) <==>
      (Offset(enc, text, k) < |Bytes(enc, text)| && Bytes(enc, text)[Offset(enc, text, k)] == ascii)
    ensures k < |text| && text[k] < 0x80 ==> Offset(enc, text, k + 1) == Offset(enc, text, k) + 1
  {
    if k < |text| {
      EdgeBytes(enc, text, k);
    } else {
      OffsetOfEnd(enc, text);
    }
  }

  lemma SameByteBefore(enc: Encoding, text: Units, k: nat)
    requires AsciiTransparent(enc)
    requires 0 < k <= |text|
    ensures 0 < Offset(enc, text, k) <= |Bytes(enc, text)|
    ensures IsBreak(text[k - 1]) <==> IsBreak(Bytes(enc, text)[Offset(enc, text, k) - 1])
  {
    EdgeBytes(enc, text, k - 1);
  }

  lemma SameDashes(enc: Encoding, text: Units, k: nat)
    requires AsciiTransparent(enc)
    requires k <= |text|
    ensures Dashes(text, k) <==> Dashes(Bytes(enc, text), Offset(enc, text, k))
    ensures Dashes(text, k) ==> Offset(enc, text, k + 3) == Offset(enc, text, k) + 3
  {
    SameByte(enc, text, k, DASH);
    if k < |text| && text[k] == DASH {
      SameByte(enc, text, k + 1, DASH);
      if k + 1 < |text| && text[k + 1] == DASH {
        SameByte(enc, text, k + 2, DASH);
        if k + 2 < |text| && text[k + 2] == DASH {
          SameByte(enc, text, k + 3, DASH);
        }
      }
    }
  }

  lemma SameEnd(enc: Encoding, text: Units, k: nat)
    requires AsciiTransparent(enc)
    requires k <= |text|
    ensures Offset(enc, text, k) <= |Bytes(enc, text)|
    ensures (k == |text| || EndsMarker(text[k])) <==>
      (Offset(enc, text, k) == |Bytes(enc, text)| || EndsMarker(Bytes(enc, text)[Offset(enc, text, k)]))
  {
    SameByte(enc, text, k, LF);
    SameByte(enc, text, k, CR);
    SameByte(enc, text, k, SPACE);
    SameByte(enc, text, k, TAB);
  }

  lemma SameStart(enc: Encoding, text: Units, k: nat)
    requires AsciiTransparent(enc)
    requires k <= |text|
    ensures var o, b := Offset(enc, text, k), Bytes(enc, text);
      o <= |b| && ((k == 0 || IsBreak(text[k - 1])) <==> (o == 0 || IsBreak(b[o - 1])))
  {
    if k > 0 {
      SameByteBefore(enc, text, k);
    }
  }

  lemma MarkerAtOffset(enc: Encoding, text: Units, k: nat)
    requires AsciiTransparent(enc)
    requires k <= |text|
    ensures IsDocMarkerAt(text, k) <==> IsDocMarkerAt(Bytes(enc, text), Offset(enc, text, k))
  {
    SameDashes(enc, text, k);
    SameStart(enc, text, k);
    if Dashes(text, k) {
      SameEnd(enc, text, k + 3);
    }
  }

  /**
    * The byte scan of a string finds exactly the scalar positions of its markers, so cutting
    * the string at a marker never splits a character.
    */
  lemma ByteMarkersAreScalarMarkers(enc: Encoding, text: Units, o: nat)
    requires AsciiTransparent(enc)
    ensures IsDocMarkerAt(Bytes(enc, text), o) <==>
      exists k: nat :: k <= |text| && o == Offset(enc, text, k) && IsDocMarkerAt(text, k)
  {
    if IsDocMarkerAt(Bytes(enc, text), o) {
      var k := AsciiIsAlone(enc, text, o);
      MarkerAtOffset(enc, text, k);
    }
    if k: nat :| k <= |text| && o == Offset(enc, text, k) && IsDocMarkerAt(text, k) {
      MarkerAtOffset(enc, text, k);
    }
  }

  /** In particular for UTF-8, the encoding of every string slice the stream cuts. */
  lemma Utf8MarkersAreScalarMarkers(text: Units, o: nat)
    ensures IsDocMarkerAt(Bytes(Encode, text), o) <==>
      exists k: nat :: k <= |text| && o == Offset(Encode, text, k) && IsDocMarkerAt(text, k)
  {
    ByteMarkersAreScalarMarkers(Encode, text, o);
  }

  // ----- the encoding itself -----

  predicate Continues(e: nat) { 0x80 <= e < 0xC0 }

  /** Section 3 of RFC 3629: one to four bytes by the size of the scalar, from which it is read back. */
  lemma EncodeIsUtf8(u: nat)
    requires u <= 0x10_FFFF
    ensures var e := Encode(u);
      if u < 0x80 then e == [u]
      else if u < 0x800 then
        |e| == 2 && 0xC0 <= e[0] < 0xE0 && Continues(e[1]) && u == (e[0] - 0xC0) * 64 + (e[1] - 0x80)
      else if u < 0x1_0000 then
        && |e| == 3 && 0xE0 <= e[0] < 0xF0 && Continues(e[1]) && Continues(e[2])
        && u == (e[0] - 0xE0) * 4096 + (e[1] - 0x80) * 64 + (e[2] - 0x80)
      else
        && |e| == 4 && 0xF0 <= e[0] < 0xF8 && Continues(e[1]) && Continues(e[2]) && Continues(e[3])
        && u == (e[0] - 0xF0) * 262144 + (e[1] - 0x80) * 4096 + (e[2] - 0x80) * 64 + (e[3] - 0x80)
  {
    var v, w := u / 64, u / 4096;
    assert u == v * 64 + u % 64 && v == w * 64 + v % 64 && w == v / 64;
    assert u / 0x4_0000 == w / 64 && w == w / 64 * 64 + w % 64;
  }

  /** The scalar values of a string. */
  function Scalars(s: string): Units { seq(|s|, i requires 0 <= i < |s| => s[i] as int) }

  /** The length the budgets are charged is the length of the encoded string. */
  lemma {:induction false} Utf8LenIsEncoded(s: string)
    ensures Utf8Len(s) == |Bytes(Encode, Scalars(s))|
    decreases |s|
  {
    if s != "" {
      Utf8LenIsEncoded(s[1..]);
      assert Scalars(s) == [s[0] as int] + Scalars(s[1..]);
      BytesOfOneBefore(Encode, s[0] as int, Scalars(s[1..]));
      assert |Encode(s[0] as int)| == CharLen(s[0]);
    }
  }

  lemma {:induction false} BytesOfOneBefore(enc: Encoding, u: nat, text: Units)
    ensures |Bytes(enc, [u] + text)| == |enc(u)| + |Bytes(enc, text)|
    decreases |text|
  {
    var all := [u] + text;
    if text == [] {
      assert Front(all) == [] && Last(all) == u;
    } else {
      BytesOfOneBefore(enc, u, Front(text));
      assert Front(all) == [u] + Front(text) && Last(all) == Last(text);
    }
  }
}
