/**
 * Integer semantics of C++ that differ from Dafny's: `/` and `%` on `int`
 * truncate toward zero, and a cast from `double` to an integer type
 * truncates toward zero as well. Dafny's own `/` and `%` are Euclidean, so
 * every division by a constant in the modelled code goes through these.
 */
module CInt {

  /** C++ `a / b` for a positive divisor: the quotient truncated toward zero. */
  function Div(a: int, b: int): (q: int)
    requires b > 0
    ensures a >= 0 ==> 0 <= a - b * q < b
    ensures a < 0 ==> -b < a - b * q <= 0
  {
    if a >= 0 then a / b else -((-a) / b)
  }

  /** C++ `a % b` for a positive divisor: the remainder has the sign of `a`. */
  function Rem(a: int, b: int): (r: int)
    requires b > 0
    ensures a == b * Div(a, b) + r
    ensures -b < r < b
    ensures a >= 0 ==> r >= 0
    ensures a <= 0 ==> r <= 0
  {
    a - b * Div(a, b)
  }

  /** A C++ cast of a floating value to an integer type: truncation toward zero. */
  function Trunc(x: real): (i: int)
    ensures x >= 0.0 ==> i as real <= x < i as real + 1.0
    ensures x < 0.0 ==> i as real - 1.0 < x <= i as real
  {
    if x >= 0.0 then x.Floor else -((-x).Floor)
  }

  /** For a non-negative dividend C++ division agrees with Euclidean division. */
  lemma DivNonNegative(a: int, b: int)
    requires a >= 0 && b > 0
    ensures Div(a, b) == a / b && Rem(a, b) == a % b
  {
  }

  /**
   * Truncating the value n/8, which a `double` holds exactly, gives the C++
   * division of n by 8: an accumulator stepped by eighths may be kept as an
   * integer count of eighths.
   */
  lemma TruncOfEighths(n: int)
    ensures Trunc(n as real / 8.0) == Div(n, 8)
  {
    var q := Div(n, 8);
    var x := n as real / 8.0;
    assert x * 8.0 == n as real;
    if n >= 0 {
      assert q as real <= x < q as real + 1.0;
    } else {
      assert q as real - 1.0 < x <= q as real;
    }
  }
}
