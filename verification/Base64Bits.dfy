/** The encoder against the standard's own definition: the text spells the bits of the bytes. */
module Base64Bits {
  import opened Common
  import opened Base64

  function Bits(v: nat, width: nat): (bits: seq<bool>)
    ensures |bits| == width
    decreases width, v
  {
    if width == 0 then [] else Bits(v / 2, width - 1) + [v % 2 == 1]
  }

  function ByteBits(bytes: seq<Byte>): seq<bool> {
    if bytes == [] then [] else Bits(bytes[0], 8) + ByteBits(bytes[1..])
  }

  /** The value of a symbol of the standard alphabet `A-Z a-z 0-9 + /`. */
  function SymbolOf(b: Byte): Option<nat> {
    var c := b as char;
    if 'A' <= c <= 'Z' then Some(c as int - 'A' as int)
    else if 'a' <= c <= 'z' then Some(c as int - 'a' as int + 26)
    else if '0' <= c <= '9' then Some(c as int - '0' as int + 52)
    else if c == '+' then Some(62)
    else if c == '/' then Some(63)
    else None
  }

  /** The encoder writes that alphabet. */
  lemma AlphabetIsStandard(v: nat)
    requires v < 64
    ensures SymbolOf(Alphabet(v)) == Some(v)
  {
  }

  /** The decoder reads it, and `=`, and nothing else. */
  lemma TableIsStandard(b: Byte)
    ensures Lut(b) == if SymbolOf(b).Some? then SymbolOf(b).value else if b as char == '=' then -2 else -1
  {
  }

  /** Six bits a symbol; padding spells none. */
  function SymbolBits(text: seq<Byte>): seq<bool> {
    if text == [] then []
    else (if SymbolOf(text[0]).None? then [] else Bits(SymbolOf(text[0]).value, 6)) + SymbolBits(text[1..])
  }

  function Power2(k: nat): (p: nat)
    ensures p > 0
  {
    if k == 0 then 1 else 2 * Power2(k - 1)
  }

  lemma {:induction false} BitsSplit(high: nat, low: nat, m: nat, k: nat)
    requires low < Power2(k)
    ensures Bits(high * Power2(k) + low, m + k) == Bits(high, m) + Bits(low, k)
    decreases k
  {
    if k > 0 {
      var half := high * Power2(k - 1);
      assert high * Power2(k) == 2 * half;
      assert (2 * half + low) / 2 == half + low / 2 && (2 * half + low) % 2 == low % 2;
      BitsSplit(high, low / 2, m, k - 1);
    }
  }

  lemma Cut(v: nat, high: nat, low: nat, m: nat, k: nat, p: nat)
    requires p == Power2(k) && low < p && v == high * p + low
    ensures Bits(v, m + k) == Bits(high, m) + Bits(low, k)
  {
    BitsSplit(high, low, m, k);
  }

  lemma SmallPowers()
    ensures Power2(2) == 4 && Power2(4) == 16 && Power2(6) == 64
  {
    assert Power2(1) == 2 && Power2(2) == 4 && Power2(3) == 8 && Power2(5) == 32;
  }

  lemma ByteCuts(v: Byte)
    ensures Bits(v, 8) == Bits(v / 4, 6) + Bits(v % 4, 2)
    ensures Bits(v, 8) == Bits(v / 16, 4) + Bits(v % 16, 4)
    ensures Bits(v, 8) == Bits(v / 64, 2) + Bits(v % 64, 6)
  {
    SmallPowers();
    Cut(v, v / 4, v % 4, 6, 2, 4);
    Cut(v, v / 16, v % 16, 4, 4, 16);
    Cut(v, v / 64, v % 64, 2, 6, 64);
  }

  lemma SecondCut(a: Byte, b: Byte)
    ensures Bits(Second(a, b), 6) == Bits(a % 4, 2) + Bits(b / 16, 4)
  {
    SmallPowers();
    Cut(Second(a, b), a % 4, b / 16, 2, 4, 16);
  }

  lemma ThirdCut(b: Byte, c: Byte)
    ensures Bits(Third(b, c), 6) == Bits(b % 16, 4) + Bits(c / 64, 2)
  {
    SmallPowers();
    Cut(Third(b, c), b % 16, c / 64, 4, 2, 4);
  }

  lemma {:induction false} SymbolBitsAppend(s: seq<Byte>, t: seq<Byte>)
    ensures SymbolBits(s + t) == SymbolBits(s) + SymbolBits(t)
    decreases |s|
  {
    if s == [] {
      assert s + t == t;
    } else {
      SymbolBitsAppend(s[1..], t);
      var all := s + t;
      assert all[0] == s[0] && all[1..] == s[1..] + t;
      var first := if SymbolOf(s[0]).None? then [] else Bits(SymbolOf(s[0]).value, 6);
      Associates(first, SymbolBits(s[1..]), SymbolBits(t));
    }
  }

  lemma {:induction false} ByteBitsAppend(s: seq<Byte>, t: seq<Byte>)
    ensures ByteBits(s + t) == ByteBits(s) + ByteBits(t)
    decreases |s|
  {
    if s == [] {
      assert s + t == t;
    } else {
      ByteBitsAppend(s[1..], t);
      var all := s + t;
      assert all[0] == s[0] && all[1..] == s[1..] + t;
      Associates(Bits(s[0], 8), ByteBits(s[1..]), ByteBits(t));
    }
  }

  lemma BitsOfSymbol(q: nat)
    requires q < 64
    ensures SymbolBits([Alphabet(q)]) == Bits(q, 6)
  {
    AlphabetIsStandard(q);
    var text := [Alphabet(q)];
    assert text[1..] == [] && Bits(q, 6) + [] == Bits(q, 6);
  }

  lemma BitsOfPad()
    ensures SymbolBits([PAD]) == []
  {
    var text := [PAD];
    assert text[1..] == [];
  }

  lemma BitsOfFour(c0: Byte, c1: Byte, c2: Byte, c3: Byte)
    ensures SymbolBits([c0, c1, c2, c3]) == SymbolBits([c0]) + SymbolBits([c1]) + SymbolBits([c2]) + SymbolBits([c3])
  {
    assert [c0, c1, c2, c3] == [c0] + [c1] + [c2] + [c3];
    SymbolBitsAppend([c0] + [c1] + [c2], [c3]);
    SymbolBitsAppend([c0] + [c1], [c2]);
    SymbolBitsAppend([c0], [c1]);
  }

  lemma BitsOfByte(b: Byte)
    ensures ByteBits([b]) == Bits(b, 8)
  {
    var bytes := [b];
    assert bytes[1..] == [] && Bits(b, 8) + [] == Bits(b, 8);
  }

  /** Zero bits after the last byte: enough to complete a symbol. */
  function Slack(n: nat): nat { if n % 3 == 0 then 0 else if n % 3 == 1 then 4 else 2 }

  ghost predicate Spells(text: seq<Byte>, bytes: seq<Byte>) {
    SymbolBits(text) == ByteBits(bytes) + Bits(0, Slack(|bytes|))
  }

  lemma SingleSpells(a: Byte)
    ensures Spells(Single(a), [a])
  {
    SingleText(a);
    BitsOfByte(a);
    ByteCuts(a);
    SecondCut(a, 0);
    Associates(Bits(a / 4, 6), Bits(a % 4, 2), Bits(0, 4));
  }

  lemma SingleText(a: Byte)
    ensures SymbolBits(Single(a)) == Bits(First(a), 6) + Bits(Second(a, 0), 6)
  {
    BitsOfFour(Alphabet(First(a)), Alphabet(Second(a, 0)), PAD, PAD);
    BitsOfSymbol(First(a));
    BitsOfSymbol(Second(a, 0));
    BitsOfPad();
    NothingMore(Bits(First(a), 6) + Bits(Second(a, 0), 6));
  }

  lemma NothingMore(x: seq<bool>)
    ensures x + [] + [] == x
  {
  }

  lemma Associates(x: seq<bool>, y: seq<bool>, z: seq<bool>)
    ensures x + (y + z) == x + y + z
  {
  }

  lemma DoubleSpells(a: Byte, b: Byte)
    ensures Spells(Double(a, b), [a] + [b])
  {
    DoubleText(a, b);
    ByteBitsAppend([a], [b]);
    BitsOfByte(a);
    BitsOfByte(b);
    ByteCuts(a);
    ByteCuts(b);
    SecondCut(a, b);
    ThirdCut(b, 0);
    Regroup(Bits(a / 4, 6), Bits(a % 4, 2), Bits(b / 16, 4), Bits(b % 16, 4), Bits(0, 2), []);
  }

  lemma DoubleText(a: Byte, b: Byte)
    ensures SymbolBits(Double(a, b)) == Bits(First(a), 6) + Bits(Second(a, b), 6) + Bits(Third(b, 0), 6) + []
  {
    BitsOfFour(Alphabet(First(a)), Alphabet(Second(a, b)), Alphabet(Third(b, 0)), PAD);
    BitsOfSymbol(First(a));
    BitsOfSymbol(Second(a, b));
    BitsOfSymbol(Third(b, 0));
    BitsOfPad();
  }

  /** The same bits, in sixes and in eights. */
  lemma Regroup(a1: seq<bool>, a0: seq<bool>, b1: seq<bool>, b0: seq<bool>, c1: seq<bool>, c0: seq<bool>)
    ensures a1 + (a0 + b1) + (b0 + c1) + c0 == (a1 + a0) + (b1 + b0) + (c1 + c0)
    ensures c0 == [] ==> a1 + (a0 + b1) + (b0 + c1) + c0 == (a1 + a0) + (b1 + b0) + c1
  {
  }

  lemma TripleSpells(a: Byte, b: Byte, c: Byte)
    ensures Spells(Triple(a, b, c), [a] + [b] + [c])
  {
    TripleText(a, b, c);
    TripleBytes(a, b, c);
    ByteCuts(a);
    ByteCuts(b);
    ByteCuts(c);
    SecondCut(a, b);
    ThirdCut(b, c);
    Regroup(Bits(a / 4, 6), Bits(a % 4, 2), Bits(b / 16, 4), Bits(b % 16, 4), Bits(c / 64, 2), Bits(c % 64, 6));
  }

  lemma TripleBytes(a: Byte, b: Byte, c: Byte)
    ensures ByteBits([a] + [b] + [c]) + Bits(0, 0) == Bits(a, 8) + Bits(b, 8) + Bits(c, 8)
  {
    ByteBitsAppend([a] + [b], [c]);
    ByteBitsAppend([a], [b]);
    BitsOfByte(a);
    BitsOfByte(b);
    BitsOfByte(c);
  }

  lemma TripleText(a: Byte, b: Byte, c: Byte)
    ensures SymbolBits(Triple(a, b, c))
      == Bits(First(a), 6) + Bits(Second(a, b), 6) + Bits(Third(b, c), 6) + Bits(Fourth(c), 6)
  {
    BitsOfFour(Alphabet(First(a)), Alphabet(Second(a, b)), Alphabet(Third(b, c)), Alphabet(Fourth(c)));
    BitsOfSymbol(First(a));
    BitsOfSymbol(Second(a, b));
    BitsOfSymbol(Third(b, c));
    BitsOfSymbol(Fourth(c));
  }

  lemma GroupSpells(bytes: seq<Byte>)
    requires |bytes| <= 3
    ensures Spells(EncodedGroup(bytes), bytes)
  {
    if |bytes| == 1 {
      assert bytes == [bytes[0]];
      SingleSpells(bytes[0]);
    } else if |bytes| == 2 {
      assert bytes == [bytes[0]] + [bytes[1]];
      DoubleSpells(bytes[0], bytes[1]);
    } else if |bytes| == 3 {
      assert bytes == [bytes[0]] + [bytes[1]] + [bytes[2]];
      TripleSpells(bytes[0], bytes[1], bytes[2]);
    }
  }

  lemma {:induction false} EncodedBySpells(bytes: seq<Byte>, encode: seq<Byte> -> seq<Byte>)
    requires forall group :: |group| <= 3 ==> Spells(encode(group), group)
    ensures Spells(EncodedBy(bytes, encode), bytes)
    decreases |bytes|
  {
    if |bytes| > 3 {
      var group, rest := bytes[..3], bytes[3..];
      EncodedBySpells(rest, encode);
      assert Spells(encode(group), group);
      SpellsAppend(encode(group), group, EncodedBy(rest, encode), rest);
      assert bytes == group + rest;
    } else {
      assert Spells(encode(bytes), bytes);
    }
  }

  lemma SpellsAppend(s: seq<Byte>, group: seq<Byte>, t: seq<Byte>, rest: seq<Byte>)
    requires |group| == 3 && Spells(s, group) && Spells(t, rest)
    ensures Spells(s + t, group + rest)
  {
    SymbolBitsAppend(s, t);
    ByteBitsAppend(group, rest);
    SlackOfThreeMore(|rest|);
    AppendSlack(ByteBits(group), ByteBits(rest), Bits(0, 0), Bits(0, Slack(|rest|)));
  }

  lemma SlackOfThreeMore(n: nat)
    ensures Slack(3 + n) == Slack(n)
  {
    assert (3 + n) % 3 == n % 3;
  }

  lemma AppendSlack(x: seq<bool>, y: seq<bool>, none: seq<bool>, slack: seq<bool>)
    requires none == []
    ensures x + none + (y + slack) == x + y + slack
  {
  }

  /**
    * The encoder against the standard's definition: the symbols spell, six bits each, the bits
    * of the bytes, completed with zero bits to a whole symbol.
    */
  lemma EncodedSpellsTheBits(bytes: seq<Byte>)
    ensures SymbolBits(Encoded(bytes)) == ByteBits(bytes) + Bits(0, Slack(|bytes|))
  {
    forall group: seq<Byte> | |group| <= 3 ensures Spells(EncodedGroup(group), group) {
      GroupSpells(group);
    }
    EncodedBySpells(bytes, EncodedGroup);
    assert Spells(EncodedBy(bytes, EncodedGroup), bytes);
  }

  // ----- length and padding -----

  /** Whole groups of four for every three bytes begun; `=` exactly where the bits have run out. */
  ghost predicate Padded(text: seq<Byte>, n: nat) {
    |text| == (n + 2) / 3 * 4 && forall k :: 0 <= k < |text| ==> (text[k] as char == '=' <==> 3 * k >= 4 * n)
  }

  lemma GroupIsPadded(bytes: seq<Byte>)
    requires |bytes| <= 3
    ensures Padded(EncodedGroup(bytes), |bytes|)
  {
    forall v: nat | v < 64 ensures Alphabet(v) as char != '=' {
      AlphabetIsStandard(v);
    }
  }

  lemma PaddedAppend(group: seq<Byte>, rest: seq<Byte>, n: nat)
    requires Padded(group, 3) && Padded(rest, n)
    ensures Padded(group + rest, 3 + n)
  {
    assert (3 + n + 2) / 3 == 1 + (n + 2) / 3;
    var text := group + rest;
    forall k | 0 <= k < |text| ensures text[k] as char == '=' <==> 3 * k >= 4 * (3 + n) {
      if k >= 4 {
        assert text[k] == rest[k - 4];
      } else {
        assert text[k] == group[k];
      }
    }
  }

  lemma {:induction false} EncodedByIsPadded(bytes: seq<Byte>, encode: seq<Byte> -> seq<Byte>)
    requires forall group :: |group| <= 3 ==> Padded(encode(group), |group|)
    ensures Padded(EncodedBy(bytes, encode), |bytes|)
    decreases |bytes|
  {
    if |bytes| > 3 {
      EncodedByIsPadded(bytes[3..], encode);
      PaddedAppend(encode(bytes[..3]), EncodedBy(bytes[3..], encode), |bytes| - 3);
    }
  }

  /** The length of an encoding, and its padding. */
  lemma EncodedIsPadded(bytes: seq<Byte>)
    ensures Padded(Encoded(bytes), |bytes|)
  {
    forall group: seq<Byte> | |group| <= 3 ensures Padded(EncodedGroup(group), |group|) {
      GroupIsPadded(group);
    }
    EncodedByIsPadded(bytes, EncodedGroup);
  }
}
