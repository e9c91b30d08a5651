/** Fixed-width unsigned integers of the machine, as ranges of `int`.
    Wrap-around and truncating casts are written out where the machine uses them. */
module Bytes {

  /** Rust `u8`. */
  type u8 = x: int | 0 <= x < 0x100

  /** Rust `u16`. */
  type u16 = x: int | 0 <= x < 0x1_0000

  /** A 4-bit field of an instruction word, and a logical key 0..15. */
  type nibble = x: int | 0 <= x < 0x10

  /** `a & b` on `u8`. */
  function And8(a: u8, b: u8): u8 {
    ((a as bv8) & (b as bv8)) as int
  }

  /** `a | b` on `u8`. */
  function Or8(a: u8, b: u8): u8 {
    ((a as bv8) | (b as bv8)) as int
  }

  /** `a ^ b` on `u8`. */
  function Xor8(a: u8, b: u8): u8 {
    ((a as bv8) ^ (b as bv8)) as int
  }

  /** `v as u8` for a non-negative value: keeps the low eight bits. */
  function Truncate8(v: int): (r: u8)
    ensures 0 <= v < 0x100 ==> r == v
    ensures (r - v) % 0x100 == 0
  {
    v % 0x100
  }

  /** `v as u16`, and `u16` addition that wraps (release-build arithmetic). */
  function Truncate16(v: int): (r: u16)
    ensures 0 <= v < 0x1_0000 ==> r == v
    ensures (r - v) % 0x1_0000 == 0
  {
    v % 0x1_0000
  }

  /** Euclidean division is determined by quotient and remainder. */
  lemma DivModUnique(a: int, b: int, q: int, r: int)
    requires b > 0 && 0 <= r < b && a == q * b + r
    ensures a / b == q && a % b == r
  {
    var d := q - a / b;
    assert d * b == a % b - r;
    MulBounds(d, b);
  }

  /** A value below the modulus is its own remainder. */
  lemma ModBelow(a: int, m: int)
    requires 0 <= a < m
    ensures a % m == a
  {
    DivModUnique(a, m, 0, a);
  }

  /** A non-zero multiple of `b` is at least `b` away from 0. */
  lemma MulBounds(d: int, b: int)
    requires b > 0
    ensures d > 0 ==> d * b >= b
    ensures d < 0 ==> d * b <= -b
  {
  }

  /** `v & 0x80` is 0x80 exactly when the top bit of `v` is set, and 0 otherwise. */
  lemma TopBitMask(v: u8)
    ensures And8(v, 0x80) == if v >= 0x80 then 0x80 else 0
  {
  }

  /** `v & 0x01` is the low bit of `v`. */
  lemma LowBitMask(v: u8)
    ensures And8(v, 0x01) == v % 2
  {
  }
}
