/** The fixed-width integers of the original and the conversions it performs on them. */
module MachineInts {

  const TWO_31: int := 0x8000_0000
  const TWO_32: int := 0x1_0000_0000
  const TWO_63: int := 0x8000_0000_0000_0000
  const TWO_64: int := 0x1_0000_0000_0000_0000

  type uint32 = x: int | 0 <= x < 0x1_0000_0000
  type uint64 = x: int | 0 <= x < 0x1_0000_0000_0000_0000
  type int64 = x: int | -0x8000_0000_0000_0000 <= x < 0x8000_0000_0000_0000

  /** Unsigned 64-bit addition. */
  function Add64(a: uint64, b: uint64): uint64 {
    (a + b) % TWO_64
  }

  /** Unsigned 64-bit subtraction. */
  function Sub64(a: uint64, b: uint64): uint64 {
    (a - b) % TWO_64
  }

  /** Conversion of any integer to an unsigned 64-bit one. */
  function ToUint64(x: int): uint64 {
    x % TWO_64
  }

  /** Conversion of an unsigned 64-bit integer to a signed one. */
  function ToInt64(x: uint64): int64 {
    if x < TWO_63 then x else x - TWO_64
  }

  /** Signed division, which drops the fractional part. */
  function TruncDiv(a: int, b: int): int
    requires b > 0
  {
    if a >= 0 then a / b else -((-a) / b)
  }

  predicate FitsInt64(x: int) {
    -TWO_63 <= x < TWO_63
  }

  /** A sum kept modulo 2^64 follows the true sum, up or down. */
  lemma Add64Follows(total: nat, x: uint64)
    ensures Add64(total % TWO_64, x) == (total + x) % TWO_64
  {
  }

  lemma Sub64Follows(total: nat, x: uint64)
    requires x <= total
    ensures Sub64(total % TWO_64, x) == (total - x) % TWO_64
  {
  }
}
