/** Python's number conversions on exact reals: `int(...)` truncates toward
    zero and `//` floors the quotient. The two disagree on negative values,
    which the simulator reaches once its cash goes below zero. */
module Numeric {

  /** `int(x)` on a float: drops the fractional part, toward zero. */
  function Trunc(x: real): int
  {
    if x >= 0.0 then x.Floor else -((-x).Floor)
  }

  /** `a // b` on floats: the floor of the exact quotient. */
  function FloorDiv(a: real, b: real): int
    requires b != 0.0
  {
    (a / b).Floor
  }

  // The bounds of the two conversions are lemmas rather than postconditions,
  // so that they enter a proof only where it asks for them: unrolled
  // everywhere, they bury the solver in integer parts of real products.

  lemma TruncBounds(x: real)
    ensures 0.0 <= x ==> 0 <= Trunc(x) && Trunc(x) as real <= x < Trunc(x) as real + 1.0
    ensures x < 0.0 ==> Trunc(x) <= 0 && Trunc(x) as real - 1.0 < x <= Trunc(x) as real
  {
  }

  lemma FloorDivBounds(a: real, b: real)
    requires b != 0.0
    ensures FloorDiv(a, b) as real <= a / b < FloorDiv(a, b) as real + 1.0
  {
  }

  function Min(a: int, b: int): int { if a <= b then a else b }

  function Max(a: int, b: int): int { if a >= b then a else b }

  function MinReal(a: real, b: real): real { if a <= b then a else b }

  /** `n * x` for a whole count `n` (shares times a price), as `n` copies of
      `x` added up (subtracted when `n` is negative). */
  function Scale(n: int, x: real): real
    decreases if n < 0 then -n else n
  {
    if n == 0 then 0.0
    else if n > 0 then Scale(n - 1, x) + x
    else Scale(n + 1, x) - x
  }

  /** Repeated addition is the product. */
  lemma {:induction false} ScaleIsProduct(n: int, x: real)
    ensures Scale(n, x) == n as real * x
    decreases if n < 0 then -n else n
  {
    if n > 0 {
      ScaleIsProduct(n - 1, x);
    } else if n < 0 {
      ScaleIsProduct(n + 1, x);
    }
  }

  // Steps of real arithmetic with whole-share counts, one product at a time.

  /** `r = floor(c / p)` at a positive `p` brackets `c` between `r` and
      `r + 1` multiples of `p`. */
  lemma FloorScaled(c: real, p: real, r: int)
    requires 0.0 < p && r as real <= c / p < r as real + 1.0
    ensures Scale(r, p) <= c < Scale(r + 1, p)
  {
    FloorProduct(c, p, r);
    ScaleIsProduct(r, p);
    ScaleIsProduct(r + 1, p);
  }

  lemma FloorProduct(c: real, p: real, r: int)
    requires 0.0 < p && r as real <= c / p < r as real + 1.0
    ensures r as real * p <= c < (r + 1) as real * p
  {
    var x := c / p;
    assert x * p == c;
    assert r as real * p <= x * p;
    assert x * p < (r + 1) as real * p;
  }

  /** One more share adds one price, whatever the sign of the count. */
  lemma ScaleSucc(n: int, x: real)
    ensures Scale(n + 1, x) == Scale(n, x) + x
  {
  }

  lemma {:induction false} ScaleAdd(a: int, b: int, p: real)
    ensures Scale(a + b, p) == Scale(a, p) + Scale(b, p)
    decreases if b < 0 then -b else b
  {
    if b > 0 {
      ScaleAdd(a, b - 1, p);
      ScaleSucc(a + b - 1, p);
      ScaleSucc(b - 1, p);
    } else if b < 0 {
      ScaleAdd(a, b + 1, p);
      ScaleSucc(a + b, p);
      ScaleSucc(b, p);
    }
  }

  lemma ScaleNegate(a: int, p: real)
    ensures Scale(-a, p) == -Scale(a, p)
  {
    ScaleAdd(a, -a, p);
  }

  lemma {:induction false} ScaleDifference(h: int, t: real, y: real)
    ensures Scale(h, t) - Scale(h, y) == Scale(h, t - y)
    decreases if h < 0 then -h else h
  {
    if h > 0 {
      ScaleDifference(h - 1, t, y);
    } else if h < 0 {
      ScaleDifference(h + 1, t, y);
    }
  }

  lemma {:induction false} ScaleNonNegative(n: int, p: real)
    requires 0 <= n && 0.0 < p
    ensures 0.0 <= Scale(n, p)
  {
    if n > 0 {
      ScaleNonNegative(n - 1, p);
    }
  }

  lemma ScaleMonotone(a: int, b: int, p: real)
    requires a <= b && 0.0 < p
    ensures Scale(a, p) <= Scale(b, p)
  {
    ScaleAdd(a, b - a, p);
    ScaleNonNegative(b - a, p);
  }

  /** Whole multiples of a positive `p` are ordered like their counts. */
  lemma MultiplesOrdered(a: int, b: int, p: real)
    requires 0.0 < p && Scale(a, p) < Scale(b, p)
    ensures a < b
  {
    if b <= a {
      ScaleMonotone(b, a, p);
    }
  }
}
