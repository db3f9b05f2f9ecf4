/**
 * Go's `int` on a 64-bit platform: two's-complement wrap-around on overflow,
 * and integer division that truncates toward zero.
 */
module Int64 {
  const MinInt64: int := -0x8000_0000_0000_0000
  const MaxInt64: int := 0x7fff_ffff_ffff_ffff

  /** The 64-bit value Go stores for the mathematical result `x`. */
  function Wrap(x: int): (r: int)
    ensures MinInt64 <= r <= MaxInt64
    ensures MinInt64 <= x <= MaxInt64 ==> r == x
    ensures (r - x) % 0x1_0000_0000_0000_0000 == 0
  {
    (x - MinInt64) % 0x1_0000_0000_0000_0000 + MinInt64
  }

  /** Go's `a + b` on int. */
  function Add(a: int, b: int): int { Wrap(a + b) }

  /** Go's `a - b` on int. */
  function Sub(a: int, b: int): int { Wrap(a - b) }

  /** Go's `a * b` on int. */
  function Mul(a: int, b: int): int { Wrap(a * b) }

  /** Go's `a / b` for b > 0: the quotient truncated toward zero. */
  function Quot(a: int, b: int): int
    requires b > 0
  {
    if a >= 0 then a / b else -((-a) / b)
  }

  /** Go's `a % b` for b > 0: the remainder takes the sign of `a`. */
  function Rem(a: int, b: int): int
    requires b > 0
  {
    if a >= 0 then a % b else -((-a) % b)
  }

  /**
   * Go's quotient and remainder by a positive divisor recombine to the
   * dividend; the remainder is smaller than the divisor, and both take the
   * sign of the dividend, so the quotient is truncated toward zero.
   */
  lemma QuotRem(a: int, b: int)
    requires b > 0
    ensures Quot(a, b) * b + Rem(a, b) == a
    ensures -b < Rem(a, b) < b
    ensures a >= 0 ==> 0 <= Rem(a, b) && 0 <= Quot(a, b)
    ensures a <= 0 ==> Rem(a, b) <= 0 && Quot(a, b) <= 0
  {
  }
}
