/** The bit operations of the base64 codec on 32-bit words are the arithmetic its model uses. */
module Words {
  lemma BitOperationsAreArithmetic(n: bv32, q0: bv32, q1: bv32, q2: bv32, q3: bv32)
    requires q0 < 64 && q1 < 64 && q2 < 64 && q3 < 64
    ensures n >> 18 == n / 262144 && n >> 16 == n / 65536 && n >> 12 == n / 4096 && n >> 8 == n / 256 &&
      n >> 6 == n / 64
    ensures n & 0xff == n % 256 && n & 0x3f == n % 64 && n & 0x0f == n % 16 && n & 0x03 == n % 4
    ensures (q0 << 18) | (q1 << 12) | (q2 << 6) | q3 == q0 * 262144 + q1 * 4096 + q2 * 64 + q3
  {
  }

  lemma BytesJoinAsSum(a: bv32, b: bv32, c: bv32)
    requires a < 256 && b < 256 && c < 256
    ensures (a << 16) | (b << 8) | c == a * 65536 + b * 256 + c
  {
  }
}
