/** Integer division as C++ defines it (rounding toward zero), and the facts the tile
    calculus rests on.  All divisors are positive. */
module TruncatedDivision {

  function Min(a: int, b: int): int { if a < b then a else b }

  function Max(a: int, b: int): int { if a < b then b else a }

  /** C++ `a / b` for a positive divisor. */
  function DivT(a: int, b: int): int
    requires b > 0
  {
    if a >= 0 then a / b else -((-a) / b)
  }

  /** `cute::ceil_div`: (a + b - 1) / b with the truncating division above. */
  function CeilDiv(a: int, b: int): int
    requires b > 0
  {
    DivT(a + b - 1, b)
  }

  lemma MulMonotone(p: int, q: int, b: int)
    requires p <= q && b >= 0
    ensures p * b <= q * b
  {
    assert (q - p) * b >= 0;
  }

  /** A floor quotient is the largest q with q * b <= a. */
  lemma QuotientAtLeast(a: int, b: int, q: int)
    requires b > 0
    ensures q <= a / b <==> q * b <= a
  {
    assert a == a / b * b + a % b;
    if q <= a / b {
      MulMonotone(q, a / b, b);
    } else {
      MulMonotone(a / b + 1, q, b);
    }
  }

  lemma FloorBounds(a: int, b: int)
    requires b > 0
    ensures a / b * b <= a < (a / b + 1) * b
  {
    QuotientAtLeast(a, b, a / b);
    QuotientAtLeast(a, b, a / b + 1);
  }

  lemma QuotientUnique(a: int, b: int, q: int)
    requires b > 0 && q * b <= a < (q + 1) * b
    ensures a / b == q
  {
    QuotientAtLeast(a, b, q);
    QuotientAtLeast(a, b, q + 1);
  }

  /** The same with the product given by name. */
  lemma QuotientFrom(a: int, b: int, q: int, qb: int)
    requires b > 0 && qb == q * b && qb <= a < qb + b
    ensures a / b == q && a % b == a - qb
  {
    assert (q + 1) * b == qb + b;
    QuotientUnique(a, b, q);
    assert a == a / b * b + a % b;
  }

  /** On a non-negative index a truncated quotient is an exact upper bound, whatever the
      sign of the dividend. */
  lemma BelowDivT(n: nat, x: int, b: int)
    requires b > 0
    ensures n < DivT(x, b) <==> (n + 1) * b <= x
  {
    if x >= 0 {
      QuotientAtLeast(x, b, n + 1);
    } else {
      QuotientAtLeast(-x, b, 0);
      MulMonotone(0, n + 1, b);
    }
  }

  /** `n >= max(0, x / b)` iff the interval [n*b, (n+1)*b) ends above x. */
  lemma AtLeastDivT(n: nat, x: int, b: int)
    requires b > 0
    ensures n >= DivT(x, b) <==> x < (n + 1) * b
  {
    BelowDivT(n, x, b);
  }

  /** `n < ceil_div(x, b)` iff the interval [n*b, (n+1)*b) starts below x. */
  lemma BelowCeilDiv(n: nat, x: int, b: int)
    requires b > 0
    ensures n < CeilDiv(x, b) <==> n * b < x
  {
    BelowDivT(n, x + b - 1, b);
    assert (n + 1) * b == n * b + b;
  }
}
