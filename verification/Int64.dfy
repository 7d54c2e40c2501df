/** Go's int64 arithmetic: bounds, wrap-around, minimum and maximum. */
module Int64 {
  const TWO_64 := 0x1_0000_0000_0000_0000
  const MAX_INT64 := 0x7FFF_FFFF_FFFF_FFFF
  const MIN_INT64 := -0x8000_0000_0000_0000

  predicate InInt64(n: int) { MIN_INT64 <= n <= MAX_INT64 }

  /** The 64-bit value of an exact result. */
  function WrapInt64(x: int): (w: int)
    ensures InInt64(w)
    ensures InInt64(x) ==> w == x
  {
    var low := x % TWO_64;
    if low > MAX_INT64 then low - TWO_64 else low
  }

  function Min(a: int, b: int): int { if a < b then a else b }

  function Max(a: int, b: int): int { if a < b then b else a }

  lemma DoubleWraps()
    ensures WrapInt64(-MIN_INT64) == MIN_INT64
    ensures WrapInt64(2 * MIN_INT64) == 0
  {
  }

  /** A running sum may be wrapped at every step. */
  lemma WrapSum(x: int, y: int)
    ensures WrapInt64(WrapInt64(x) + y) == WrapInt64(x + y)
  {
    var q, r := x / TWO_64, x % TWO_64;
    var w := WrapInt64(x);
    assert x == q * TWO_64 + r;
    assert (x + y) % TWO_64 == (w + y) % TWO_64;
  }
}
