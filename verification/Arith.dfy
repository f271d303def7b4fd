// Facts about quotients that the solver does not find by itself.
module Arith {

  lemma MulMonotone(a: int, b: int, n: int)
    requires a <= b && 0 <= n
    ensures a * n <= b * n
  {
  }

  lemma MulGap(d: int, n: int)
    requires n > 0
    ensures d >= 1 ==> d * n >= n
    ensures d <= -1 ==> d * n <= -n
  {
    if d >= 1 { MulMonotone(1, d, n); }
    if d <= -1 { MulMonotone(d, -1, n); }
  }

  /** A quotient and remainder are determined by a == q * n + r. */
  lemma DivUnique(a: int, q: int, n: int, r: int)
    requires n > 0 && a == q * n + r && 0 <= r < n
    ensures a / n == q && a % n == r
  {
    var d := q - a / n;
    assert a == (a / n) * n + a % n;
    assert d * n == q * n - (a / n) * n;
    MulGap(d, n);
  }

  lemma MultipleOf(k: int, n: int)
    requires n > 0
    ensures (k * n) % n == 0 && (k * n) / n == k
  {
    DivUnique(k * n, k, n, 0);
  }

  lemma DivMonotone(a: int, b: int, n: int)
    requires a <= b && n > 0
    ensures a / n <= b / n
  {
    var d := a / n - b / n;
    assert a == (a / n) * n + a % n && b == (b / n) * n + b % n;
    assert d * n == (a / n) * n - (b / n) * n;
    MulGap(d, n);
  }

  /** A quotient grows by one exactly at the multiples. */
  lemma DivStep(a: int, n: int)
    requires n > 0
    ensures a / n - (a - 1) / n == if a % n == 0 then 1 else 0
  {
    assert a == (a / n) * n + a % n;
    if a % n == 0 {
      assert a - 1 == (a / n - 1) * n + (n - 1);
      DivUnique(a - 1, a / n - 1, n, n - 1);
    } else {
      DivUnique(a - 1, a / n, n, a % n - 1);
    }
  }
}
