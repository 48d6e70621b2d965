/** Facts about multiplication and division of reals, each stated so that the
    solver's non-linear reasoning has a small, product-only step to take. */
module RealArith {

  /** A lower bound on a quotient bounds the dividend. */
  lemma DivLowerBound(a: real, b: real, y: real)
    requires 0.0 < b && y <= a / b
    ensures y * b <= a
  {
  }

  /** An upper bound on a quotient bounds the dividend. */
  lemma DivUpperBound(a: real, b: real, y: real)
    requires 0.0 < b && a / b < y
    ensures a < y * b
  {
  }

  /** Bounds on a dividend bound its quotient. */
  lemma QuotientBetween(a: real, b: real, lo: real, hi: real)
    requires 0.0 < b && lo * b <= a < hi * b
    ensures lo <= a / b < hi
  {
  }

  /** Multiplying by a positive factor keeps the order. */
  lemma MulMonotone(x: real, y: real, c: real)
    requires x <= y && 0.0 < c
    ensures x * c <= y * c
  {
  }

  /** Less than one divisor past the `k`-th multiple stays below the `n`-th
      multiple when `k < n`. */
  lemma WithinMultiple(k: real, u: real, b: real, n: real)
    requires 0.0 < b && 0.0 <= u < b && k + 1.0 <= n
    ensures k * b + u < b * n
  {
    MulMonotone(k + 1.0, n, b);
    assert (k + 1.0) * b == k * b + b;
  }

  /** Below the next multiple means less than one divisor past this one. */
  lemma BelowNext(a: real, q: real, b: real)
    ensures a < (q + 1.0) * b <==> a - q * b < b
  {
  }

  /** The floor of a quotient whose dividend lies in
      `[k * b, (k + 1) * b)` is `k`. */
  lemma FloorOfQuotient(a: real, b: real, k: int)
    requires 0.0 < b && k as real * b <= a && a - k as real * b < b
    ensures (a / b).Floor == k
  {
    BelowNext(a, k as real, b);
    QuotientBetween(a, b, k as real, k as real + 1.0);
  }
}
