/**
  * The base64 codec of `!!binary` scalars, on bytes. The shifts and masks of the code act on
  * non-negative numbers below 2^24, so they are written as quotients, remainders and sums;
  * the lemmas of `Words` are that reading, on 32-bit words.
  */
module Base64 {
  import opened Common

  type Byte = x: int | 0 <= x < 256

  datatype DecodeError = BadLength | BadCharacter | BadPadding | NonCanonical

  const PAD: Byte := 61
  const INVALID := -1
  const SENTINEL := -2

  /** Position of a 6-bit symbol in `A-Z a-z 0-9 + /`. */
  function Alphabet(v: int): Byte
    requires 0 <= v < 64
  {
    if v < 26 then v + 65 else if v < 52 then v + 71 else if v < 62 then v - 4 else if v == 62 then 43 else 47
  }

  /** The decode table. */
  function Lut(c: Byte): (q: int)
    ensures q < 64
  {
    if 65 <= c <= 90 then c - 65
    else if 97 <= c <= 122 then c - 71
    else if 48 <= c <= 57 then c + 4
    else if c == 43 then 62
    else if c == 47 then 63
    else if c == PAD then SENTINEL
    else INVALID
  }

  lemma LutInvertsAlphabet(v: int)
    requires 0 <= v < 64
    ensures Lut(Alphabet(v)) == v && Alphabet(v) != PAD && !IsSpace(Alphabet(v))
  {
  }

  lemma AlphabetInvertsLut(c: Byte)
    requires Lut(c) >= 0
    ensures Alphabet(Lut(c)) == c
  {
  }

  // ----- building the table -----

  /** The table after `letters` steps of the first loop and `digits` of the second. */
  ghost function Filled(c: Byte, letters: nat, digits: nat): int {
    if 65 <= c <= 90 && c - 65 < letters then c - 65
    else if 97 <= c <= 122 && c - 97 < letters then c - 71
    else if 48 <= c <= 57 && c - 48 < digits then c + 4
    else INVALID
  }

  method BuildLut() returns (lut: array<int>)
    ensures fresh(lut) && lut.Length == 256
    ensures forall c: Byte :: lut[c] == Lut(c)
  {
    lut := new int[256](_ => INVALID);
    var i := 0;
    while i < 26
      invariant 0 <= i <= 26
      invariant forall c: Byte :: lut[c] == Filled(c, i, 0)
    {
      lut[65 + i] := i;
      lut[97 + i] := i + 26;
      i := i + 1;
    }
    i := 0;
    while i < 10
      invariant 0 <= i <= 10
      invariant forall c: Byte :: lut[c] == Filled(c, 26, i)
    {
      lut[48 + i] := i + 52;
      i := i + 1;
    }
    lut[43] := 62;
    lut[47] := 63;
    lut[PAD] := SENTINEL;
  }

  // ----- encoding -----

  // The four 6-bit values of three bytes: each takes bits of the bytes it straddles.

  function First(a: Byte): (q: nat)
    ensures q < 64
  {
    a / 4
  }

  function Second(a: Byte, b: Byte): (q: nat)
    ensures q < 64
  {
    a % 4 * 16 + b / 16
  }

  function Third(b: Byte, c: Byte): (q: nat)
    ensures q < 64
  {
    b % 16 * 4 + c / 64
  }

  function Fourth(c: Byte): (q: nat)
    ensures q < 64
  {
    c % 64
  }

  function Triple(a: Byte, b: Byte, c: Byte): seq<Byte> {
    [Alphabet(First(a)), Alphabet(Second(a, b)), Alphabet(Third(b, c)), Alphabet(Fourth(c))]
  }

  function Double(a: Byte, b: Byte): seq<Byte> {
    [Alphabet(First(a)), Alphabet(Second(a, b)), Alphabet(Third(b, 0)), PAD]
  }

  function Single(a: Byte): seq<Byte> {
    [Alphabet(First(a)), Alphabet(Second(a, 0)), PAD, PAD]
  }

  /** The group that one, two or three bytes encode to when they are the last ones. */
  function EncodedGroup(bytes: seq<Byte>): seq<Byte> {
    if |bytes| == 0 then []
    else if |bytes| == 1 then Single(bytes[0])
    else if |bytes| == 2 then Double(bytes[0], bytes[1])
    else Triple(bytes[0], bytes[1], bytes[2])
  }

  /** Groups of three bytes, the last one possibly shorter. */
  function EncodedBy(bytes: seq<Byte>, encode: seq<Byte> -> seq<Byte>): seq<Byte> {
    if |bytes| <= 3 then encode(bytes)
    else encode(bytes[..3]) + EncodedBy(bytes[3..], encode)
  }

  /** The encoding of section 4 of RFC 4648. */
  function Encoded(bytes: seq<Byte>): seq<Byte> { EncodedBy(bytes, EncodedGroup) }

  lemma EncodedFromChunk(bytes: seq<Byte>)
    requires |bytes| >= 3
    ensures Encoded(bytes) == Triple(bytes[0], bytes[1], bytes[2]) + Encoded(bytes[3..])
  {
    if |bytes| == 3 {
      var chunk := Triple(bytes[0], bytes[1], bytes[2]);
      assert bytes[3..] == [] && chunk + [] == chunk;
    }
  }

  method Encode(input: seq<Byte>) returns (out: seq<Byte>)
    ensures out == Encoded(input)
  {
    out := [];
    var i := 0;
    while i + 3 <= |input|
      invariant 0 <= i <= |input|
      invariant Encoded(input) == out + Encoded(input[i..])
      decreases |input| - i
    {
      EncodedFromChunk(input[i..]);
      assert input[i..][3..] == input[i + 3..];
      var chunk := EncodeChunk(input[i], input[i + 1], input[i + 2]);
      out := out + chunk;
      i := i + 3;
    }
    var rest := input[i..];
    if |rest| == 1 {
      var chunk := EncodeChunk(rest[0], 0, 0);
      out := out + [chunk[0], chunk[1], PAD, PAD];
    } else if |rest| == 2 {
      var chunk := EncodeChunk(rest[0], rest[1], 0);
      out := out + [chunk[0], chunk[1], chunk[2], PAD];
    }
  }

  /** The 24-bit word of the code, and its four indexes into the alphabet. */
  method EncodeChunk(a: Byte, b: Byte, c: Byte) returns (out: seq<Byte>)
    ensures out == Triple(a, b, c)
  {
    var n := a * 65536 + b * 256 + c;
    SplitPacked(a, b, c);
    out := [Alphabet(n / 262144 % 64), Alphabet(n / 4096 % 64), Alphabet(n / 64 % 64), Alphabet(n % 64)];
  }

  lemma SplitPacked(a: Byte, b: Byte, c: Byte)
    ensures var n := a * 65536 + b * 256 + c;
      n / 262144 % 64 == First(a) && n / 4096 % 64 == Second(a, b) && n / 64 % 64 == Third(b, c) && n % 64 == Fourth(c)
  {
    var a1, a0, b1, b0, c1, c0 := a / 4, a % 4, b / 16, b % 16, c / 64, c % 64;
    assert a == a1 * 4 + a0 && b == b1 * 16 + b0 && c == c1 * 64 + c0;
    FourDigits(a * 65536 + b * 256 + c, a1, a0 * 16 + b1, b0 * 4 + c1, c0);
  }

  lemma FourDigits(n: nat, q0: nat, q1: nat, q2: nat, q3: nat)
    requires q0 < 64 && q1 < 64 && q2 < 64 && q3 < 64
    requires n == q0 * 262144 + q1 * 4096 + q2 * 64 + q3
    ensures n / 262144 % 64 == q0 && n / 4096 % 64 == q1 && n / 64 % 64 == q2 && n % 64 == q3
  {
    assert n / 64 == q0 * 4096 + q1 * 64 + q2;
    assert n / 4096 == q0 * 64 + q1;
  }

  // ----- decoding -----

  predicate IsSpace(b: Byte) { b == 32 || b == 9 || b == 13 || b == 10 }

  function Strip(text: seq<Byte>): seq<Byte> {
    if text == [] then []
    else if IsSpace(Last(text)) then Strip(Front(text))
    else Strip(Front(text)) + [Last(text)]
  }

  // The three bytes of four 6-bit values.

  function High(q0: nat, q1: nat): Byte
    requires q0 < 64 && q1 < 64
  {
    q0 * 4 + q1 / 16
  }

  function Middle(q1: nat, q2: nat): Byte
    requires q2 < 64
  {
    q1 % 16 * 16 + q2 / 4
  }

  function Low(q2: nat, q3: nat): Byte
    requires q3 < 64
  {
    q2 % 4 * 64 + q3
  }

  /** A group of four table entries; `final` says that no symbol follows it. */
  function DecodeEntries(q0: int, q1: int, q2: int, q3: int, final: bool): Result<seq<Byte>, DecodeError>
    requires q0 < 64 && q1 < 64 && q2 < 64 && q3 < 64
  {
    if q0 < 0 || q1 < 0 then Err(BadCharacter)
    else if q2 >= 0 && q3 >= 0 then Ok([High(q0, q1), Middle(q1, q2), Low(q2, q3)])
    else if q2 == SENTINEL && q3 == SENTINEL && final then
      if q1 % 16 != 0 then Err(NonCanonical) else Ok([High(q0, q1)])
    else if q2 >= 0 && q3 == SENTINEL && final then
      if q2 % 4 != 0 then Err(NonCanonical) else Ok([High(q0, q1), Middle(q1, q2)])
    else Err(BadPadding)
  }

  function DecodeGroup(group: seq<Byte>, final: bool): Result<seq<Byte>, DecodeError>
    requires |group| == 4
  {
    DecodeEntries(Lut(group[0]), Lut(group[1]), Lut(group[2]), Lut(group[3]), final)
  }

  type GroupDecoder = (seq<Byte>, bool) --> Result<seq<Byte>, DecodeError>

  ghost predicate TakesFour(decode: GroupDecoder) { forall g, final :: |g| == 4 ==> decode.requires(g, final) }

  function Prepend(out: seq<Byte>, r: Result<seq<Byte>, DecodeError>): Result<seq<Byte>, DecodeError> {
    if r.Err? then r else Ok(out + r.value)
  }

  /** Groups of four symbols; an error stops the run. */
  function DecodedBy(buf: seq<Byte>, decode: GroupDecoder): Result<seq<Byte>, DecodeError>
    requires TakesFour(decode)
  {
    if buf == [] then Ok([])
    else if |buf| < 4 then Err(BadLength)
    else
      var bytes :- decode(buf[..4], |buf| == 4);
      Prepend(bytes, DecodedBy(buf[4..], decode))
  }

  function DecodeGroups(buf: seq<Byte>): Result<seq<Byte>, DecodeError> { DecodedBy(buf, DecodeGroup) }

  function Decoded(text: seq<Byte>): Result<seq<Byte>, DecodeError> {
    var buf := Strip(text);
    if |buf| % 4 != 0 then Err(BadLength) else DecodeGroups(buf)
  }

  lemma PrependNothing(r: Result<seq<Byte>, DecodeError>)
    ensures Prepend([], r) == r
  {
    if r.Ok? {
      assert [] + r.value == r.value;
    }
  }

  lemma PrependTwice(out: seq<Byte>, bytes: seq<Byte>, r: Result<seq<Byte>, DecodeError>)
    ensures Prepend(out, Prepend(bytes, r)) == Prepend(out + bytes, r)
  {
    if r.Ok? {
      assert out + (bytes + r.value) == out + bytes + r.value;
    }
  }

  method Decode(input: seq<Byte>) returns (r: Result<seq<Byte>, DecodeError>)
    ensures r == Decoded(input)
  {
    var lut := BuildLut();
    var buf := StripSpaces(input);
    if |buf| % 4 != 0 {
      return Err(BadLength);
    }
    if |buf| == 0 {
      return Ok([]);
    }
    r := DecodeWith(lut, buf);
  }

  method StripSpaces(input: seq<Byte>) returns (buf: seq<Byte>)
    ensures buf == Strip(input)
  {
    buf := [];
    for i := 0 to |input|
      invariant buf == Strip(input[..i])
    {
      assert Front(input[..i + 1]) == input[..i];
      if !IsSpace(input[i]) {
        buf := buf + [input[i]];
      }
    }
    assert input[..|input|] == input;
  }

  method DecodeWith(lut: array<int>, buf: seq<Byte>) returns (r: Result<seq<Byte>, DecodeError>)
    requires lut.Length == 256 && forall c: Byte :: lut[c] == Lut(c)
    requires |buf| % 4 == 0
    ensures r == DecodeGroups(buf)
  {
    r := DecodeLoop(lut, buf, DecodeGroup);
  }

  /** The group loop, over the table; no index of the buffer or of the table is out of range. */
  method DecodeLoop(lut: array<int>, buf: seq<Byte>, ghost decode: GroupDecoder)
    returns (r: Result<seq<Byte>, DecodeError>)
    requires lut.Length == 256 && forall c: Byte :: lut[c] == Lut(c)
    requires |buf| % 4 == 0
    requires TakesFour(decode) && decode == DecodeGroup
    ensures r == DecodedBy(buf, decode)
  {
    var out := [];
    var i := 0;
    ghost var rest, left := buf, |buf| / 4;
    PrependNothing(DecodedBy(buf, decode));
    while i < |buf|
      invariant 0 <= i <= |buf| && rest == buf[i..] && |rest| == 4 * left
      invariant DecodedBy(buf, decode) == Prepend(out, DecodedBy(rest, decode))
      decreases |buf| - i
    {
      var group := DecodeAt(lut, buf, i, rest, decode);
      OneGroup(out, rest, decode);
      if group.Err? {
        return group;
      }
      out := out + group.value;
      SuffixAfterGroup(buf, i, rest);
      i, rest, left := i + 4, rest[4..], left - 1;
    }
    assert out + [] == out;
    return Ok(out);
  }

  lemma SuffixAfterGroup(buf: seq<Byte>, i: nat, rest: seq<Byte>)
    requires i + 4 <= |buf| && rest == buf[i..]
    ensures rest[4..] == buf[i + 4..]
  {
  }

  method DecodeAt(lut: array<int>, buf: seq<Byte>, i: nat, ghost rest: seq<Byte>, ghost decode: GroupDecoder)
    returns (r: Result<seq<Byte>, DecodeError>)
    requires lut.Length == 256 && forall c: Byte :: lut[c] == Lut(c)
    requires i <= |buf| && rest == buf[i..] && |rest| >= 4
    requires TakesFour(decode) && decode == DecodeGroup
    ensures r == decode(rest[..4], |rest| == 4)
  {
    var q0, q1, q2, q3 := lut[buf[i]], lut[buf[i + 1]], lut[buf[i + 2]], lut[buf[i + 3]];
    r := DecodeQuartet(q0, q1, q2, q3, i + 4 == |buf|);
  }

  /** One turn of the loop. */
  lemma OneGroup(out: seq<Byte>, rest: seq<Byte>, decode: GroupDecoder)
    requires TakesFour(decode)
    requires |rest| >= 4
    ensures var group := decode(rest[..4], |rest| == 4);
      Prepend(out, DecodedBy(rest, decode))
      == if group.Err? then group else Prepend(out + group.value, DecodedBy(rest[4..], decode))
  {
    var group := decode(rest[..4], |rest| == 4);
    if group.Ok? {
      PrependTwice(out, group.value, DecodedBy(rest[4..], decode));
    }
  }

  /** The branches of the loop body, in the order of the code, over its 24-bit words. */
  method DecodeQuartet(q0: int, q1: int, q2: int, q3: int, final: bool) returns (r: Result<seq<Byte>, DecodeError>)
    requires q0 < 64 && q1 < 64 && q2 < 64 && q3 < 64
    ensures r == DecodeEntries(q0, q1, q2, q3, final)
  {
    if q0 < 0 || q1 < 0 {
      return Err(BadCharacter);
    }
    var b0 := q0 * 262144 + q1 * 4096;
    if q2 >= 0 && q3 >= 0 {
      var v := b0 + q2 * 64 + q3;
      SplitJoined(q0, q1, q2, q3);
      r := Ok([v / 65536 % 256, v / 256 % 256, v % 256]);
    } else if q2 == SENTINEL && q3 == SENTINEL && final {
      if q1 % 16 != 0 {
        return Err(NonCanonical);
      }
      SplitJoined(q0, q1, 0, 0);
      r := Ok([b0 / 65536 % 256]);
    } else if q2 >= 0 && q3 == SENTINEL && final {
      if q2 % 4 != 0 {
        return Err(NonCanonical);
      }
      var v := b0 + q2 * 64;
      SplitJoined(q0, q1, q2, 0);
      r := Ok([v / 65536 % 256, v / 256 % 256]);
    } else {
      r := Err(BadPadding);
    }
  }

  lemma SplitJoined(q0: nat, q1: nat, q2: nat, q3: nat)
    requires q0 < 64 && q1 < 64 && q2 < 64 && q3 < 64
    ensures var v := q0 * 262144 + q1 * 4096 + q2 * 64 + q3;
      v / 65536 % 256 == High(q0, q1) && v / 256 % 256 == Middle(q1, q2) && v % 256 == Low(q2, q3)
  {
    var v := q0 * 262144 + q1 * 4096 + q2 * 64 + q3;
    var x1, y1, x2, y2 := q1 / 16, q1 % 16, q2 / 4, q2 % 4;
    assert q1 == x1 * 16 + y1 && q2 == x2 * 4 + y2;
    Digits(v, q0 * 4 + x1, y1 * 16 + x2, y2 * 64 + q3);
  }

  lemma Digits(v: nat, a: Byte, b: Byte, c: Byte)
    requires v == a * 65536 + b * 256 + c
    ensures v / 65536 % 256 == a && v / 256 % 256 == b && v % 256 == c
  {
    assert v / 256 == a * 256 + b;
  }

  // ----- a group decodes to exactly the bytes that encode to it -----

  lemma EntriesOfSymbols(q0: nat, q1: nat, q2: nat, q3: nat)
    requires q0 < 64 && q1 < 64 && q2 < 64 && q3 < 64
    ensures Lut(Alphabet(q0)) == q0 && Lut(Alphabet(q1)) == q1 && Lut(Alphabet(q2)) == q2 && Lut(Alphabet(q3)) == q3
  {
    LutInvertsAlphabet(q0);
    LutInvertsAlphabet(q1);
    LutInvertsAlphabet(q2);
    LutInvertsAlphabet(q3);
  }

  lemma By16(x: nat, y: nat)
    requires y < 16
    ensures (x * 16 + y) / 16 == x && (x * 16 + y) % 16 == y
  {
  }

  lemma By4(x: nat, y: nat)
    requires y < 4
    ensures (x * 4 + y) / 4 == x && (x * 4 + y) % 4 == y
  {
  }

  lemma HighIsFirst(a: Byte, b: Byte)
    ensures High(First(a), Second(a, b)) == a
    ensures Second(a, 0) % 16 == 0
  {
  }

  lemma MiddleIsSecond(a: Byte, b: Byte, c: Byte)
    ensures Middle(Second(a, b), Third(b, c)) == b
    ensures Third(b, 0) % 4 == 0
  {
    By16(a % 4, b / 16);
    By4(b % 16, c / 64);
    By4(b % 16, 0);
  }

  lemma LowIsThird(b: Byte, c: Byte)
    ensures Low(Third(b, c), Fourth(c)) == c
  {
    By4(b % 16, c / 64);
  }

  lemma TripleDecodes(a: Byte, b: Byte, c: Byte, final: bool)
    ensures DecodeGroup(Triple(a, b, c), final) == Ok([a, b, c])
  {
    EntriesOfSymbols(First(a), Second(a, b), Third(b, c), Fourth(c));
    HighIsFirst(a, b);
    MiddleIsSecond(a, b, c);
    LowIsThird(b, c);
  }

  lemma DoubleDecodes(a: Byte, b: Byte)
    ensures DecodeGroup(Double(a, b), true) == Ok([a, b])
  {
    EntriesOfSymbols(First(a), Second(a, b), Third(b, 0), 0);
    HighIsFirst(a, b);
    MiddleIsSecond(a, b, 0);
  }

  lemma SingleDecodes(a: Byte)
    ensures DecodeGroup(Single(a), true) == Ok([a])
  {
    LutInvertsAlphabet(First(a));
    LutInvertsAlphabet(Second(a, 0));
    HighIsFirst(a, 0);
  }

  lemma GroupDecodes(bytes: seq<Byte>, final: bool)
    requires 1 <= |bytes| <= 3 && (|bytes| < 3 ==> final)
    ensures |EncodedGroup(bytes)| == 4 && DecodeGroup(EncodedGroup(bytes), final) == Ok(bytes)
  {
    if |bytes| == 1 {
      assert bytes == [bytes[0]] && final;
      SingleDecodes(bytes[0]);
    } else if |bytes| == 2 {
      assert bytes == [bytes[0], bytes[1]] && final;
      DoubleDecodes(bytes[0], bytes[1]);
    } else {
      assert bytes == [bytes[0], bytes[1], bytes[2]];
      TripleDecodes(bytes[0], bytes[1], bytes[2], final);
    }
  }

  lemma FirstIsHigh(q0: nat, q1: nat, q2: nat)
    requires q0 < 64 && q1 < 64 && q2 < 64
    ensures First(High(q0, q1)) == q0 && Second(High(q0, q1), Middle(q1, q2)) == q1
    ensures q1 % 16 == 0 ==> Second(High(q0, q1), 0) == q1
  {
  }

  lemma ThirdIsMiddle(q1: nat, q2: nat, q3: nat)
    requires q1 < 64 && q2 < 64 && q3 < 64
    ensures Third(Middle(q1, q2), Low(q2, q3)) == q2 && Fourth(Low(q2, q3)) == q3
    ensures q2 % 4 == 0 ==> Third(Middle(q1, q2), 0) == q2
  {
    var x, y, z := q1 % 16, q2 / 4, q2 % 4;
    assert (x * 16 + y) % 16 == y;
    assert (z * 64 + q3) / 64 == z && (z * 64 + q3) % 64 == q3;
  }

  /** The only group with the given entries. */
  lemma SpelledByEntry(c: Byte)
    ensures Lut(c) >= 0 ==> Alphabet(Lut(c)) == c
    ensures Lut(c) == SENTINEL ==> c == PAD
  {
    if Lut(c) >= 0 {
      AlphabetInvertsLut(c);
    }
  }

  /** The symbol with a given entry, once the entry is known to be a value. */
  lemma SpelledAs(q: nat, c: Byte)
    requires q < 64 && q == Lut(c)
    ensures Alphabet(q) == c
  {
    AlphabetInvertsLut(c);
  }

  /** Non-zero padding bits are refused, so a decoded group has only one spelling. */
  lemma GroupIsCanonical(group: seq<Byte>, final: bool)
    requires |group| == 4 && DecodeGroup(group, final).Ok?
    ensures var bytes := DecodeGroup(group, final).value;
      1 <= |bytes| <= 3 && EncodedGroup(bytes) == group && (|bytes| < 3 ==> final)
  {
    var q0, q1, q2, q3 := Lut(group[0]), Lut(group[1]), Lut(group[2]), Lut(group[3]);
    SpelledAs(q0, group[0]);
    SpelledAs(q1, group[1]);
    FirstIsHigh(q0, q1, if q2 >= 0 then q2 else 0);
    if q3 >= 0 {
      SpelledAs(q2, group[2]);
      SpelledAs(q3, group[3]);
      ThirdIsMiddle(q1, q2, q3);
    } else {
      SpelledByEntry(group[3]);
      if q2 >= 0 {
        SpelledAs(q2, group[2]);
        ThirdIsMiddle(q1, q2, 0);
      } else {
        SpelledByEntry(group[2]);
      }
    }
    assert group == [group[0], group[1], group[2], group[3]];
  }

  // ----- from groups to texts -----

  ghost predicate IsGroup(bytes: seq<Byte>, final: bool) { 1 <= |bytes| <= 3 && (|bytes| < 3 ==> final) }

  ghost predicate Decodes(encode: seq<Byte> -> seq<Byte>, decode: GroupDecoder, bytes: seq<Byte>, final: bool)
    requires TakesFour(decode)
  {
    |encode(bytes)| == 4 && decode(encode(bytes), final) == Ok(bytes)
  }

  ghost predicate Encodes(encode: seq<Byte> -> seq<Byte>, decode: GroupDecoder, group: seq<Byte>, final: bool)
    requires TakesFour(decode) && |group| == 4
  {
    var r := decode(group, final);
    r.Ok? ==> IsGroup(r.value, final) && encode(r.value) == group
  }

  /** A coder and a decoder of groups that undo each other, in both directions. */
  ghost predicate Exact(encode: seq<Byte> -> seq<Byte>, decode: GroupDecoder) {
    && TakesFour(decode)
    && encode([]) == []
    && (forall bytes, final :: IsGroup(bytes, final) ==> Decodes(encode, decode, bytes, final))
    && (forall group, final :: |group| == 4 ==> Encodes(encode, decode, group, final))
  }

  lemma GroupsAreExact()
    ensures Exact(EncodedGroup, DecodeGroup)
  {
    var decode: GroupDecoder := DecodeGroup;
    forall bytes, final | IsGroup(bytes, final) ensures Decodes(EncodedGroup, decode, bytes, final) {
      GroupDecodes(bytes, final);
    }
    forall group, final | |group| == 4 ensures Encodes(EncodedGroup, decode, group, final) {
      if DecodeGroup(group, final).Ok? {
        GroupIsCanonical(group, final);
      }
    }
  }

  lemma EncodedAfterGroup(bytes: seq<Byte>, rest: seq<Byte>, encode: seq<Byte> -> seq<Byte>)
    requires encode([]) == [] && 1 <= |bytes| <= 3 && (|bytes| < 3 ==> rest == [])
    ensures EncodedBy(bytes + rest, encode) == encode(bytes) + EncodedBy(rest, encode)
  {
    if rest == [] {
      assert bytes + rest == bytes;
    } else {
      assert (bytes + rest)[..3] == bytes && (bytes + rest)[3..] == rest;
    }
  }

  lemma {:induction false} OnlyEncodingsDecode(buf: seq<Byte>, encode: seq<Byte> -> seq<Byte>, decode: GroupDecoder)
    requires Exact(encode, decode) && DecodedBy(buf, decode).Ok?
    ensures EncodedBy(DecodedBy(buf, decode).value, encode) == buf
    decreases |buf|
  {
    if buf != [] {
      assert Encodes(encode, decode, buf[..4], |buf| == 4);
      var bytes := decode(buf[..4], |buf| == 4).value;
      OnlyEncodingsDecode(buf[4..], encode, decode);
      EncodedAfterGroup(bytes, DecodedBy(buf[4..], decode).value, encode);
    }
  }

  lemma {:induction false} EncodedLength(bytes: seq<Byte>, encode: seq<Byte> -> seq<Byte>, decode: GroupDecoder)
    requires Exact(encode, decode)
    ensures |EncodedBy(bytes, encode)| % 4 == 0 && (bytes != [] ==> |EncodedBy(bytes, encode)| > 0)
    decreases |bytes|
  {
    if |bytes| > 3 {
      assert IsGroup(bytes[..3], true);
      EncodedLength(bytes[3..], encode, decode);
    } else if bytes != [] {
      assert IsGroup(bytes, true);
    }
  }

  lemma {:induction false} EncodingsDecode(bytes: seq<Byte>, encode: seq<Byte> -> seq<Byte>, decode: GroupDecoder)
    requires Exact(encode, decode)
    ensures DecodedBy(EncodedBy(bytes, encode), decode) == Ok(bytes)
    decreases |bytes|
  {
    if bytes != [] {
      var k := if |bytes| < 3 then |bytes| else 3;
      var group, rest := bytes[..k], bytes[k..];
      assert group + rest == bytes;
      EncodedAfterGroup(group, rest, encode);
      EncodingsDecode(rest, encode, decode);
      EncodedLength(rest, encode, decode);
      DecodedFromGroup(group, rest, EncodedBy(rest, encode), encode, decode);
    }
  }

  lemma DecodedFromGroup(
      group: seq<Byte>, rest: seq<Byte>, text: seq<Byte>, encode: seq<Byte> -> seq<Byte>, decode: GroupDecoder)
    requires Exact(encode, decode)
    requires IsGroup(group, text == []) && DecodedBy(text, decode) == Ok(rest)
    ensures DecodedBy(encode(group) + text, decode) == Ok(group + rest)
  {
    var buf := encode(group) + text;
    assert Decodes(encode, decode, group, text == []);
    assert buf[..4] == encode(group) && buf[4..] == text;
  }

  /**
    * Exact acceptance (sections 4 and 3.5 of RFC 4648): a text decodes to some bytes if and
    * only if, its white space removed, it is the encoding of those bytes.
    */
  lemma AcceptsExactlyEncodings(text: seq<Byte>, bytes: seq<Byte>)
    ensures Decoded(text) == Ok(bytes) <==> Strip(text) == Encoded(bytes)
  {
    GroupsAreExact();
    ExactlyEncodings(Strip(text), bytes, EncodedGroup, DecodeGroup);
  }

  lemma ExactlyEncodings(buf: seq<Byte>, bytes: seq<Byte>, encode: seq<Byte> -> seq<Byte>, decode: GroupDecoder)
    requires Exact(encode, decode)
    ensures |buf| % 4 == 0 && DecodedBy(buf, decode) == Ok(bytes) <==> buf == EncodedBy(bytes, encode)
  {
    if |buf| % 4 == 0 && DecodedBy(buf, decode) == Ok(bytes) {
      OnlyEncodingsDecode(buf, encode, decode);
    }
    if buf == EncodedBy(bytes, encode) {
      EncodedLength(bytes, encode, decode);
      EncodingsDecode(bytes, encode, decode);
    }
  }

  predicate NoSpace(text: seq<Byte>) {
    text == [] || (!IsSpace(Last(text)) && NoSpace(Front(text)))
  }

  lemma {:induction false} NoSpaceAppend(s: seq<Byte>, t: seq<Byte>)
    requires NoSpace(s) && NoSpace(t)
    ensures NoSpace(s + t)
    decreases |t|
  {
    if t == [] {
      assert s + t == s;
    } else {
      NoSpaceAppend(s, Front(t));
      assert Front(s + t) == s + Front(t);
    }
  }

  lemma {:induction false} StripIsIdentity(text: seq<Byte>)
    requires NoSpace(text)
    ensures Strip(text) == text
    decreases |text|
  {
    if text != [] {
      StripIsIdentity(Front(text));
    }
  }

  lemma FourHaveNoSpace(text: seq<Byte>)
    requires |text| == 4 && !IsSpace(text[0]) && !IsSpace(text[1]) && !IsSpace(text[2]) && !IsSpace(text[3])
    ensures NoSpace(text)
  {
    var t3 := Front(text);
    var t2 := Front(t3);
    var t1 := Front(t2);
    assert Front(t1) == [];
    assert NoSpace(t1) && NoSpace(t2) && NoSpace(t3);
  }

  lemma GroupHasNoSpace(bytes: seq<Byte>)
    requires 1 <= |bytes| <= 3
    ensures NoSpace(EncodedGroup(bytes))
  {
    FourHaveNoSpace(EncodedGroup(bytes));
  }

  lemma {:induction false} EncodedHasNoSpace(bytes: seq<Byte>)
    ensures NoSpace(Encoded(bytes))
    decreases |bytes|
  {
    if |bytes| > 3 {
      GroupHasNoSpace(bytes[..3]);
      EncodedHasNoSpace(bytes[3..]);
      NoSpaceAppend(EncodedGroup(bytes[..3]), Encoded(bytes[3..]));
    } else if bytes != [] {
      GroupHasNoSpace(bytes);
    }
  }

  lemma EncodedIsDense(bytes: seq<Byte>)
    ensures Strip(Encoded(bytes)) == Encoded(bytes)
  {
    EncodedHasNoSpace(bytes);
    StripIsIdentity(Encoded(bytes));
  }

  /** Decoding undoes encoding. */
  lemma DecodeUndoesEncode(bytes: seq<Byte>)
    ensures Decoded(Encoded(bytes)) == Ok(bytes)
  {
    EncodedIsDense(bytes);
    AcceptsExactlyEncodings(Encoded(bytes), bytes);
  }

  /** It does so wherever white space is put in between. */
  lemma SpacedEncodingDecodes(bytes: seq<Byte>, spaced: seq<Byte>)
    requires Strip(spaced) == Encoded(bytes)
    ensures Decoded(spaced) == Decoded(Encoded(bytes)) == Ok(bytes)
  {
    DecodeUndoesEncode(bytes);
    AcceptsExactlyEncodings(spaced, bytes);
  }

  /** Accepted texts are canonical: two that decode alike differ in white space only. */
  lemma AcceptedTextsAreCanonical(s: seq<Byte>, t: seq<Byte>)
    requires Decoded(s).Ok? && Decoded(s) == Decoded(t)
    ensures Strip(s) == Strip(t)
  {
    AcceptsExactlyEncodings(s, Decoded(s).value);
    AcceptsExactlyEncodings(t, Decoded(s).value);
  }
}
