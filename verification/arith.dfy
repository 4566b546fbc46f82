/**
 C integer division and remainder, and the few facts about multiplication
 and Euclidean division that the index arithmetic of the kernel relies on.
 */
module Arith {

  /** Quotient of C's `/` on `int` for a positive divisor: truncates toward zero. */
  function CDiv(a: int, n: int): (q: int)
    requires n > 0
    ensures a >= 0 ==> 0 <= q && n * q <= a < n * q + n
    ensures a < 0 ==> q <= 0 && n * q - n < a <= n * q
  {
    QuotientBounds(if a >= 0 then a else -a, n);
    if a >= 0 then a / n else -((-a) / n)
  }

  /** Euclidean division of a nonnegative number brackets it between two multiples of the divisor. */
  lemma QuotientBounds(b: int, n: int)
    requires b >= 0 && n > 0
    ensures 0 <= b / n && n * (b / n) <= b < n * (b / n) + n
  {
    assert b == n * (b / n) + b % n && 0 <= b % n < n;
  }

  /** Remainder of C's `%` on `int` for a positive divisor: it carries the sign of `a`. */
  function CRem(a: int, n: int): (r: int)
    requires n > 0
    ensures a == n * CDiv(a, n) + r
    ensures a >= 0 ==> 0 <= r < n
    ensures a < 0 ==> -n < r <= 0
  {
    if a >= 0 then a % n else -((-a) % n)
  }

  lemma MulLeMono(d: int, x: int, y: int)
    requires d >= 0 && x <= y
    ensures d * x <= d * y
  {
    assert d * y - d * x == d * (y - x);
  }

  /** Cancelling a positive factor from a strict inequality. */
  lemma MulLtCancel(d: int, x: int, y: int)
    requires d > 0 && d * x < d * y
    ensures x < y
  {
    if x >= y {
      MulLeMono(d, y, x);
    }
  }

  /** Euclidean division is determined by quotient and remainder. */
  lemma DivUnique(a: int, d: int, q: int, r: int)
    requires d > 0 && 0 <= r < d && a == d * q + r
    ensures a / d == q && a % d == r
  {
    var q', r' := a / d, a % d;
    assert a == d * q' + r';
    assert d * (q' + 1) == d * q' + d;
    assert d * (q + 1) == d * q + d;
    if q' < q {
      MulLeMono(d, q' + 1, q);
    } else if q' > q {
      MulLeMono(d, q + 1, q');
    }
  }

  /** `DivUnique` as an implication, for callers that cannot establish its premise first. */
  lemma DivUniqueWhen(a: int, d: int, q: int, r: int)
    requires d > 0
    ensures 0 <= r < d && a == d * q + r ==> a / d == q && a % d == r
  {
    if 0 <= r < d && a == d * q + r {
      DivUnique(a, d, q, r);
    }
  }

  /** C division of an exact multiple gives back the factor, whatever its sign. */
  lemma CDivExact(k: int, n: int)
    requires n > 0
    ensures CDiv(n * k, n) == k
  {
    if k >= 0 {
      MulLeMono(n, 0, k);
      DivUnique(n * k, n, k, 0);
    } else {
      MulLeMono(n, k, 0);
      if n * k == 0 {
        MulLtCancel(n, k, 0);
      }
      assert -(n * k) == n * (-k);
      DivUnique(-(n * k), n, -k, 0);
    }
  }

  /** A nonnegative value below `d * bound` has its quotient by `d` in `[0, bound)`. */
  lemma QuotientBelow(a: int, d: int, bound: int)
    requires a >= 0 && d > 0 && a < d * bound
    ensures 0 <= a / d < bound
  {
    var q := a / d;
    assert a == d * q + a % d;
    if q < 0 {
      MulLeMono(d, q, -1);
    }
    MulLtCancel(d, q, bound);
  }

  /** Dividing by `b` and then by `c` is dividing by `c * b`. */
  lemma DivDiv(a: int, b: int, c: int)
    requires a >= 0 && b > 0 && c > 0
    ensures a / (c * b) == (a / b) / c
  {
    var q, z := a / b, a % b;
    var t, u := q / c, q % c;
    assert a == b * q + z;
    assert q == c * t + u;
    assert a == (c * b) * t + (b * u + z);
    MulLeMono(b, 0, u);
    MulLeMono(b, u, c - 1);
    assert b * (c - 1) == c * b - b;
    DivUnique(a, c * b, t, b * u + z);
  }

  lemma MulSucc(a: int, k: int)
    ensures (a + 1) * k == k + a * k
  {
  }
}
