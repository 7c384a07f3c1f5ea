/** The source's 32-bit signed `int`/`int32`, and the conversion a wider value undergoes. */
module Int32Math {
  const Int32Min: int := -0x8000_0000
  const Int32Limit: int := 0x8000_0000

  type Int32 = x: int | Int32Min <= x < Int32Limit

  /**
   * The int32 an integer converts to: two's-complement wrap-around, that is,
   * shifting by 2^32 until the value lands in the 32-bit range.
   */
  function ToInt32(v: int): (r: Int32)
    ensures Int32Min <= v < Int32Limit ==> r == v
    decreases if v < 0 then -2 * v else 2 * v + 1
  {
    if v < Int32Min then ToInt32(v + 0x1_0000_0000)
    else if v >= Int32Limit then ToInt32(v - 0x1_0000_0000)
    else v
  }

  /** The conversion keeps the value modulo 2^32, which is what makes it a wrap-around. */
  lemma {:induction false} ToInt32Wraps(v: int)
    ensures (ToInt32(v) - v) % 0x1_0000_0000 == 0
    decreases if v < 0 then -2 * v else 2 * v + 1
  {
    if v < Int32Min {
      ToInt32Wraps(v + 0x1_0000_0000);
    } else if v >= Int32Limit {
      ToInt32Wraps(v - 0x1_0000_0000);
    }
  }

  /** A size of 2^31 or more does not survive the conversion: it comes out negative. */
  lemma LargeSizeTurnsNegative(n: nat)
    requires Int32Limit <= n < 0x1_0000_0000
    ensures ToInt32(n) == n - 0x1_0000_0000 < 0
  {
  }
}
