/** Decimal names for anchor ids, padded to three digits. */
module AnchorNames {
  import opened Common

  function Digit(d: nat): char
    requires d < 10
  {
    (d as char) + '0'
  }

  function Decimal(n: nat): string {
    if n < 10 then [Digit(n)] else Decimal(n / 10) + [Digit(n % 10)]
  }

  function Pad(s: string): string
    decreases 3 - |s|
  {
    if |s| < 3 then Pad("0" + s) else s
  }

  function FormatId(id: nat): string { "id" + Pad(Decimal(id)) }

  /** The number a string of digits spells. */
  ghost function Spelled(s: string): int {
    if s == "" then 0 else 10 * Spelled(Front(s)) + (Last(s) as int - '0' as int)
  }

  lemma {:induction false} DecimalSpells(n: nat)
    ensures Spelled(Decimal(n)) == n
  {
    if n >= 10 {
      DecimalSpells(n / 10);
      assert Front(Decimal(n)) == Decimal(n / 10);
    } else {
      assert Front(Decimal(n)) == "";
    }
  }

  lemma {:induction false} LeadingZero(s: string)
    ensures Spelled("0" + s) == Spelled(s)
    decreases |s|
  {
    if s == "" {
      assert Front("0" + s) == "";
    } else {
      LeadingZero(Front(s));
      assert Front("0" + s) == "0" + Front(s);
    }
  }

  lemma {:induction false} PadSpells(s: string)
    ensures Spelled(Pad(s)) == Spelled(s)
    decreases 3 - |s|
  {
    if |s| < 3 {
      LeadingZero(s);
      PadSpells("0" + s);
    }
  }

  /** Distinct ids have distinct names. */
  lemma NamesAreDistinct(a: nat, b: nat)
    requires FormatId(a) == FormatId(b)
    ensures a == b
  {
    assert Pad(Decimal(a)) == FormatId(a)[2..] == FormatId(b)[2..] == Pad(Decimal(b));
    PadSpells(Decimal(a));
    PadSpells(Decimal(b));
    DecimalSpells(a);
    DecimalSpells(b);
  }

  ghost predicate AllDigits(s: string) { forall i :: 0 <= i < |s| ==> '0' <= s[i] <= '9' }

  /** Decimal digits, without a leading zero but for zero itself. */
  lemma {:induction false} DecimalIsShort(n: nat)
    ensures AllDigits(Decimal(n)) && Decimal(n) != "" && (n > 0 ==> Decimal(n)[0] != '0')
  {
    if n >= 10 {
      DecimalIsShort(n / 10);
    }
  }

  lemma {:induction false} PadFillsUp(s: string)
    requires AllDigits(s)
    ensures AllDigits(Pad(s)) && |Pad(s)| == Max(|s|, 3) && (|s| >= 3 ==> Pad(s) == s)
    decreases 3 - |s|
  {
    if |s| < 3 {
      PadFillsUp("0" + s);
    }
  }

  /** A name is `id` and the number in decimal, three digits wide, wider ones without a leading zero. */
  lemma NameIsPaddedNumber(id: nat)
    ensures var name := FormatId(id);
      && |name| >= 5 && name[0] == 'i' && name[1] == 'd'
      && AllDigits(name[2..]) && Spelled(name[2..]) == id
      && (|name| > 5 ==> name[2] != '0')
  {
    var digits := Pad(Decimal(id));
    assert FormatId(id)[2..] == digits;
    DecimalIsShort(id);
    PadFillsUp(Decimal(id));
    PadSpells(Decimal(id));
    DecimalSpells(id);
    if |digits| > 3 {
      NotZero(id);
    }
  }

  lemma NotZero(id: nat)
    requires |Decimal(id)| > 3
    ensures id > 0
  {
  }
}
