/**
 * Row-major index arithmetic shared by the array kernels: the position of
 * element `b` of row `a` in rows of length `n`.
 */
module IndexMath {

  /** Defined by rows so that the solver sees no product unless a lemma supplies it. */
  function At(a: nat, n: nat, b: nat): nat
    decreases a
  {
    if a == 0 then b else At(a - 1, n, b) + n
  }

  lemma {:induction false} AtIsProduct(a: nat, n: nat, b: nat)
    ensures At(a, n, b) == a * n + b
    decreases a
  {
    if a > 0 {
      AtIsProduct(a - 1, n, b);
      assert (a - 1) * n + n == a * n;
    }
  }

  lemma MulMonotone(a: nat, c: nat, n: nat)
    requires a <= c
    ensures a * n <= c * n
  {
    assert c * n == a * n + (c - a) * n;
  }

  /** Positions grow with the row. */
  lemma {:induction false} AtMonotone(a: nat, c: nat, n: nat, b: nat)
    requires a <= c
    ensures At(a, n, b) <= At(c, n, b)
    decreases c
  {
    if a < c {
      AtMonotone(a, c - 1, n, b);
    }
  }

  /** A position in the first m rows lies below m * n. */
  lemma AtBound(a: nat, n: nat, b: nat, m: nat)
    requires a < m && b < n
    ensures At(a, n, b) < m * n
    ensures At(a, n, b) + (n - b) <= m * n
  {
    AtIsProduct(a, n, b);
    MulMonotone(a + 1, m, n);
    assert (a + 1) * n == a * n + n;
  }

  /** A non-zero multiple of n is at least n away from 0. */
  lemma NonZeroMultiple(d: int, n: int)
    ensures d >= 1 && n >= 0 ==> d * n >= n
    ensures d <= -1 && n >= 0 ==> d * n <= -n
  {
    if d >= 1 && n >= 0 {
      MulMonotone(1, d, n);
    }
    if d <= -1 && n >= 0 {
      MulMonotone(1, -d, n);
      assert d * n == -((-d) * n);
    }
  }

  /** Row and column are recovered from a position by division and remainder. */
  lemma AtDivMod(a: nat, n: nat, b: nat)
    requires b < n
    ensures At(a, n, b) / n == a && At(a, n, b) % n == b
  {
    AtIsProduct(a, n, b);
    var k := At(a, n, b);
    var q, r := k / n, k % n;
    assert q * n + r == a * n + b;
    assert (q - a) * n == b - r;
    NonZeroMultiple(q - a, n);
  }

  /** Distinct (row, column) pairs have distinct positions. */
  lemma AtUnique(a: nat, b: nat, c: nat, d: nat, n: nat)
    requires b < n && d < n && At(a, n, b) == At(c, n, d)
    ensures a == c && b == d
  {
    AtDivMod(a, n, b);
    AtDivMod(c, n, d);
  }

  /** Every position below m * n is some (row, column) pair. */
  lemma AtOfDivMod(k: nat, n: nat, m: nat)
    requires k < m * n
    ensures n > 0 && k / n < m && k % n < n && At(k / n, n, k % n) == k
  {
    var q, r := k / n, k % n;
    assert k == q * n + r;
    if q >= m {
      MulMonotone(m, q, n);
    }
    AtIsProduct(q, n, r);
  }

  /** A position is the start of its row plus its column. */
  lemma AtShift(a: nat, n: nat, b: nat)
    ensures At(a, n, b) == At(a, n, 0) + b
  {
    AtIsProduct(a, n, b);
    AtIsProduct(a, n, 0);
  }

  /** Every position of an earlier row lies before the start of a later row. */
  lemma AtRowOrder(a: nat, b: nat, c: nat, n: nat)
    requires a < c && b < n
    ensures At(a, n, b) < At(c, n, 0)
  {
    AtIsProduct(a, n, b);
    AtIsProduct(c, n, 0);
    MulMonotone(a + 1, c, n);
    assert (a + 1) * n == a * n + n;
  }

  /** Row a of length n ends within the first m rows. */
  lemma RowEnd(a: nat, n: nat, m: nat)
    requires a < m
    ensures At(a, n, 0) + n <= m * n
  {
    AtIsProduct(a + 1, n, 0);
    MulMonotone(a + 1, m, n);
  }

  /** Row a of rows of length n fits before row m: it starts after row 0 ends, unless it is row 0. */
  lemma RowInFrame(a: nat, n: nat, m: nat)
    requires a < m
    ensures At(a, n, 0) + n <= At(m, n, 0)
    ensures a >= 1 ==> n <= At(a, n, 0)
  {
    AtIsProduct(a, n, 0);
    AtIsProduct(m, n, 0);
    MulMonotone(a + 1, m, n);
    if a >= 1 {
      MulMonotone(1, a, n);
    }
    assert (a + 1) * n == a * n + n;
  }
}
