/** Java's 32-bit `int` arithmetic, written out over unbounded integers. */
module JavaInt {

  const INT_MIN: int := -0x8000_0000
  const INT_MAX: int := 0x7FFF_FFFF
  const TWO_32: int := 0x1_0000_0000

  /** The values of a Java `int`. */
  type int32 = x: int | -0x8000_0000 <= x <= 0x7FFF_FFFF

  /** Two's-complement wrap-around: the `int` congruent to `x` modulo 2^32. */
  function Wrap32(x: int): (r: int32)
    ensures (x - r) % TWO_32 == 0
    ensures INT_MIN <= x <= INT_MAX ==> r == x
  {
    var m := x % TWO_32;
    if m <= INT_MAX then m else m - TWO_32
  }

  /** Adding a multiple of 2^32 does not change the wrapped value. */
  lemma WrapShift(b: int, q: int)
    ensures Wrap32(b + q * TWO_32) == Wrap32(b)
  {
    var x := b + q * TWO_32;
    var d, m := b / TWO_32, b % TWO_32;
    assert x == (d + q) * TWO_32 + m && 0 <= m < TWO_32;
    assert x / TWO_32 == d + q;
    assert x % TWO_32 == m;
  }

  /** `Math.abs(int)`: the magnitude, except that `Integer.MIN_VALUE` stays negative. */
  function Abs32(x: int32): (r: int32)
    ensures r >= 0 <==> x != INT_MIN
    ensures x != INT_MIN ==> r == x || r == -x
    ensures x == INT_MIN ==> r == x
  {
    if x < 0 then Wrap32(-(x as int)) else x
  }

  /** Euclidean division of a non-negative number by a positive one, as bounds on the product. */
  lemma DivBounds(n: int, b: int)
    requires n >= 0 && b > 0
    ensures 0 <= (n / b) * b <= n < (n / b) * b + b
  {
    var q, r := n / b, n % b;
    assert n == q * b + r && 0 <= r < b;
    assert q >= 0;
    MulNonneg(q, b);
  }

  lemma MulNonneg(x: int, y: int)
    requires x >= 0 && y >= 0
    ensures x * y >= 0
  {
  }

  /** Java's `/` on `int` and `long` for a positive divisor: division truncated toward zero. */
  function TruncDiv(a: int, b: int): (q: int)
    requires b > 0
    ensures a >= 0 ==> 0 <= q * b <= a < q * b + b
    ensures a < 0 ==> q * b - b < a <= q * b <= 0
  {
    if a >= 0 then
      DivBounds(a, b);
      a / b
    else
      var q := (-a) / b;
      DivBounds(-a, b);
      assert (-q) * b == -(q * b);
      -q
  }

  /** Java's `%` for a positive divisor: what is left after the truncated division; it takes the
      sign of the dividend. */
  function Rem(a: int, b: int): (r: int)
    requires b > 0
    ensures a == TruncDiv(a, b) * b + r
    ensures a >= 0 ==> 0 <= r < b
    ensures a < 0 ==> -b < r <= 0
    ensures a >= 0 ==> r == a % b
    ensures a < 0 ==> r == -((-a) % b)
  {
    a - TruncDiv(a, b) * b
  }
}
