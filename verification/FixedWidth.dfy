/** The fixed-width integers of the C++ source: u_int64_t, and the narrowing to a 32-bit int. */
module FixedWidth {

  const TWO_TO_31 := 0x8000_0000
  const TWO_TO_32 := 0x1_0000_0000
  const TWO_TO_64 := 0x1_0000_0000_0000_0000

  type u64 = x: int | 0 <= x < 0x1_0000_0000_0000_0000
  type i32 = x: int | -0x8000_0000 <= x < 0x8000_0000

  /** Conversion of any integer value to u_int64_t: reduction modulo 2^64. */
  function ToU64(x: int): u64 {
    x % TWO_TO_64
  }

  /** Conversion of any integer value to int: the low 32 bits read in two's complement. */
  function ToInt32(x: int): i32 {
    var low := x % TWO_TO_32;
    if low < TWO_TO_31 then low else low - TWO_TO_32
  }

  /** std::min. */
  function Min(a: int, b: int): int {
    if a < b then a else b
  }

  /** Each conversion keeps the value modulo the width of its result, which with its range determines it. */
  lemma ConversionToU64(x: int)
    ensures 0 <= ToU64(x) < 0x1_0000_0000_0000_0000 && (x - ToU64(x)) % 0x1_0000_0000_0000_0000 == 0
  {
    var k := x / TWO_TO_64;
    assert x - ToU64(x) == k * TWO_TO_64;
  }

  lemma ConversionToInt32(x: int)
    ensures -0x8000_0000 <= ToInt32(x) < 0x8000_0000 && (x - ToInt32(x)) % 0x1_0000_0000 == 0
  {
    var k := x / TWO_TO_32;
    assert x == x % TWO_TO_32 + k * TWO_TO_32;
    assert x - ToInt32(x) == k * TWO_TO_32 || x - ToInt32(x) == (k + 1) * TWO_TO_32;
  }

  /** There is only one 32-bit int that agrees with x modulo 2^32. */
  lemma NarrowedIs(x: int, r: int)
    requires -0x8000_0000 <= r < 0x8000_0000 && (x - r) % 0x1_0000_0000 == 0
    ensures ToInt32(x) == r
  {
    var k := (x - r) / TWO_TO_32;
    assert x == r + k * TWO_TO_32;
  }
}
