/** The machine arithmetic the detector's running mean is computed with:
    C#'s unchecked 32-bit `int` and its division, which truncates toward zero. */
module Arith {
  const Two31: int := 0x8000_0000
  const Two32: int := 0x1_0000_0000

  predicate InInt32(x: int) {
    -Two31 <= x < Two31
  }

  /** The value an unchecked 32-bit two's-complement operation leaves for the
      mathematical result `x`. */
  function Wrap32(x: int): int {
    (x + Two31) % Two32 - Two31
  }

  /** Integer division rounding toward zero, as `/` on C# integers and the
      `(int)` cast of a positive-divisor quotient do. */
  function TruncDiv(a: int, b: int): int
    requires b > 0
  {
    if a >= 0 then a / b else -((-a) / b)
  }

  /** `Wrap32` is the 32-bit two's-complement result: in range, congruent to
      `x` modulo 2^32, and `x` itself when `x` fits. */
  lemma Wrap32Spec(x: int)
    ensures InInt32(Wrap32(x))
    ensures (x - Wrap32(x)) % Two32 == 0
    ensures InInt32(x) ==> Wrap32(x) == x
  {
  }

  /** `TruncDiv` rounds toward zero: the floor for a non-negative dividend,
      the ceiling for a negative one. */
  lemma TruncDivBounds(a: int, b: int)
    requires b > 0
    ensures 0 <= a ==> 0 <= TruncDiv(a, b) && TruncDiv(a, b) * b <= a < TruncDiv(a, b) * b + b
    ensures a < 0 ==> TruncDiv(a, b) <= 0 && TruncDiv(a, b) * b - b < a <= TruncDiv(a, b) * b
  {
  }

  /** Truncating division is odd: negating the dividend negates the quotient. */
  lemma TruncDivNegate(a: int, b: int)
    requires b > 0
    ensures TruncDiv(-a, b) == -TruncDiv(a, b)
  {
  }
}
