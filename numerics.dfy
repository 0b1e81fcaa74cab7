/** Java's 32-bit integers, its truncating integer division, and its
    float-to-int cast, stated over Dafny's unbounded `int` and `real`. */
module Numerics {

  const INT_MIN: int := -0x8000_0000
  const INT_MAX: int := 0x7fff_ffff

  predicate IsInt32(n: int) {
    INT_MIN <= n <= INT_MAX
  }

  function Abs(n: int): nat {
    if n < 0 then -n else n
  }

  /** Java's `a / b` on int: the exact quotient truncated toward zero
      (Dafny's own `/` is Euclidean and differs for negative operands). */
  function TruncDiv(a: int, b: int): (q: int)
    requires b != 0
    ensures Abs(q) == Abs(a) / Abs(b)
    ensures q > 0 ==> (a > 0) == (b > 0)
    ensures q < 0 ==> (a > 0) != (b > 0)
  {
    NatDiv(Abs(a), Abs(b));
    var m := Abs(a) / Abs(b);
    if (a >= 0) == (b > 0) then m else -m
  }

  lemma MulLe(x: int, y: int, d: int)
    requires x <= y && d > 0
    ensures x * d <= y * d
  {
  }

  /** Euclidean division of a natural number is natural, and zero for zero. */
  lemma NatDiv(n: nat, d: nat)
    requires d > 0
    ensures n / d >= 0
    ensures n / d > 0 ==> n > 0
  {
    var q := n / d;
    assert q * d + n % d == n;
    if q < 0 {
      MulLe(q, -1, d);
    } else if q > 0 {
      MulLe(1, q, d);
    }
  }

  /** A real truncated toward zero. */
  function Trunc(r: real): (n: int)
    ensures r >= 0.0 ==> n as real <= r < n as real + 1.0
    ensures r < 0.0 ==> n as real - 1.0 < r <= n as real
  {
    if r >= 0.0 then r.Floor else -((-r).Floor)
  }

  /** Java's `(int) f` for a float that is not NaN: truncation toward zero,
      saturating at the ends of the int range. */
  function FloatToInt(r: real): (n: int)
    ensures IsInt32(n)
    ensures r >= INT_MAX as real ==> n == INT_MAX
    ensures r <= INT_MIN as real ==> n == INT_MIN
    ensures INT_MIN as real < r < INT_MAX as real ==> n == Trunc(r)
  {
    if r >= INT_MAX as real then INT_MAX
    else if r <= INT_MIN as real then INT_MIN
    else Trunc(r)
  }

  /** A value that lies between two ints stays between them once truncated:
      the cast of a coordinate inside a rectangle lands inside it. */
  lemma TruncBetween(r: real, lo: int, hi: int)
    requires lo as real <= r <= hi as real
    ensures lo <= Trunc(r) <= hi
  {
    var n := Trunc(r);
    if r >= 0.0 {
      assert lo as real < n as real + 1.0;
    } else {
      assert n as real - 1.0 < hi as real;
    }
  }

  /** The cast keeps a value that lies between two int32 values between them. */
  lemma FloatToIntBetween(r: real, lo: int, hi: int)
    requires IsInt32(lo) && IsInt32(hi)
    requires lo as real <= r <= hi as real
    ensures lo <= FloatToInt(r) <= hi
  {
    if INT_MIN as real < r < INT_MAX as real {
      TruncBetween(r, lo, hi);
    }
  }
}
