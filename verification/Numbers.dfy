/** Fixed-width unsigned integers of the original, as subset types of `int`. */
module Numbers {
  const TWO8: int := 0x100
  const TWO16: int := 0x1_0000
  const TWO31: int := 0x8000_0000
  const TWO32: int := 0x1_0000_0000
  const TWO64: int := 0x1_0000_0000_0000_0000

  type byte = x: int | 0 <= x < TWO8
  type u16 = x: int | 0 <= x < TWO16
  type u32 = x: int | 0 <= x < TWO32

  function Min(a: int, b: int): int {
    if a <= b then a else b
  }

  function Max(a: int, b: int): int {
    if a <= b then b else a
  }

  /** Distance between two positions on a number line. */
  function Distance(a: int, b: int): nat {
    if a <= b then b - a else a - b
  }

  /** Unsigned 64-bit subtraction: wraps around when the result would be negative. */
  function Sub64(a: nat, b: nat): nat {
    if b <= a then a - b else (a - b) % TWO64
  }

  /** Wrapping around 32 bits early does not change a sum. */
  lemma AddThenWrap(x: nat, v: nat)
    ensures (x % TWO32 + v) % TWO32 == (x + v) % TWO32
  {
  }

  /** A flag counted as a sequence number. */
  function Bit(b: bool): nat {
    if b then 1 else 0
  }
}
