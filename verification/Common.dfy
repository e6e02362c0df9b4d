/** Machine words, results and the text measure every part of the model shares. */
module Common {

  const USIZE_MAX: nat := 0xFFFF_FFFF_FFFF_FFFF
  const U32_MAX: nat := 0xFFFF_FFFF

  type usize = n: nat | n <= USIZE_MAX
  type u32 = n: nat | n <= U32_MAX

  datatype Option<+T> = None | Some(value: T)

  datatype Result<+T, +E> = Ok(value: T) | Err(error: E) {
    predicate IsFailure() { Err? }

    function PropagateFailure<U>(): Result<U, E>
      requires Err?
    {
      Err(error)
    }

    function Extract(): T
      requires Ok?
    {
      value
    }
  }

  function Min(a: nat, b: nat): nat { if a <= b then a else b }

  function Max(a: nat, b: nat): nat { if a <= b then b else a }

  /** `usize::saturating_add` and its two companions. */
  function SatAdd(a: nat, b: nat): usize { Min(a + b, USIZE_MAX) }

  function SatSub(a: nat, b: nat): nat { if a <= b then 0 else a - b }

  function SatMul(a: nat, b: nat): usize { Min(a * b, USIZE_MAX) }

  /** The value a saturating counter shows for the exact count `n`. */
  function Sat(n: nat): usize { Min(n, USIZE_MAX) }

  /** 64-bit arithmetic that stops at its ends. */
  lemma WordsSaturate(a: nat, b: nat)
    ensures SatAdd(a, b) == if a + b < 0x1_0000_0000_0000_0000 then a + b else 0xFFFF_FFFF_FFFF_FFFF
    ensures SatMul(a, b) == if a * b < 0x1_0000_0000_0000_0000 then a * b else 0xFFFF_FFFF_FFFF_FFFF
    ensures Sat(a) == if a < 0x1_0000_0000_0000_0000 then a else 0xFFFF_FFFF_FFFF_FFFF
    ensures a >= b ==> SatSub(a, b) == a - b
    ensures a <= b ==> SatSub(a, b) == 0
  {
  }

  function Last<T>(s: seq<T>): T
    requires s != []
  {
    s[|s| - 1]
  }

  function Front<T>(s: seq<T>): seq<T>
    requires s != []
  {
    s[..|s| - 1]
  }

  /** The bytes one Unicode scalar value takes in UTF-8. */
  function CharLen(c: char): nat {
    if c as int < 0x80 then 1
    else if c as int < 0x800 then 2
    else if c as int < 0x1_0000 then 3
    else 4
  }

  /** `str::len`: the length of a string in UTF-8 bytes. */
  function Utf8Len(s: string): nat {
    if s == "" then 0 else CharLen(s[0]) + Utf8Len(s[1..])
  }
}
