// Places scaled down, `x * d / n`, and sums over the places that fall together.
module Scaling {
  import Arith

  function Scale(x: nat, d: nat, n: nat): nat
    requires n > 0
  {
    x * d / n
  }

  lemma ScaleMonotone(x: nat, y: nat, d: nat, n: nat)
    requires n > 0 && x <= y
    ensures Scale(x, d, n) <= Scale(y, d, n)
  {
    Arith.MulMonotone(x, y, d);
    Arith.DivMonotone(x * d, y * d, n);
  }

  /** Scaling down skips no place. */
  lemma ScaleStep(x: nat, d: nat, n: nat)
    requires 0 < d <= n
    ensures Scale(x + 1, d, n) <= Scale(x, d, n) + 1
  {
    var q := Scale(x, d, n);
    assert x * d == q * n + (x * d) % n;
    assert (x + 1) * d == x * d + d && (q + 1) * n + n == q * n + 2 * n;
    var r := (x * d) % n + d;
    if r < n {
      Arith.DivUnique((x + 1) * d, q, n, r);
    } else {
      Arith.DivUnique((x + 1) * d, q + 1, n, r - n);
    }
  }

  lemma ScaleEnds(d: nat, n: nat)
    requires 0 < d <= n
    ensures Scale(0, d, n) == 0 && Scale(n - 1, d, n) == d - 1
  {
    assert (n - 1) * d == (d - 1) * n + (n - d);
    Arith.DivUnique((n - 1) * d, d - 1, n, n - d);
  }

  lemma ScaleBelow(x: nat, d: nat, n: nat)
    requires 0 < d <= n && x < n
    ensures Scale(x, d, n) < d
  {
    ScaleMonotone(x, n - 1, d, n);
    ScaleEnds(d, n);
  }

  /** Every place below `d` is reached. */
  lemma {:induction false} ScaleReaches(at: nat, d: nat, n: nat) returns (x: nat)
    requires 0 < d <= n && at < d
    ensures x < n && Scale(x, d, n) == at
  {
    x := 0;
    ScaleEnds(d, n);
    while Scale(x, d, n) < at
      invariant x < n && Scale(x, d, n) <= at
      decreases n - x
    {
      ScaleStep(x, d, n);
      assert x != n - 1;
      x := x + 1;
    }
  }

  // ---------------------------------------------------------------------------
  // Sums over the places that fall together
  // ---------------------------------------------------------------------------

  /** The values of the first `n` places that `place` sends to `at`, added up. */
  function SumWhere(n: nat, place: nat -> nat, at: nat, value: nat -> nat): nat {
    if n == 0 then 0 else SumWhere(n - 1, place, at, value) + if place(n - 1) == at then value(n - 1) else 0
  }

  lemma {:induction false} SumStays(m: nat, n: nat, place: nat -> nat, at: nat, value: nat -> nat)
    requires m <= n && forall i :: m <= i < n ==> place(i) != at
    ensures SumWhere(n, place, at, value) == SumWhere(m, place, at, value)
    decreases n - m
  {
    if m < n { SumStays(m, n - 1, place, at, value); }
  }

  lemma {:induction false} SumIsPositive(n: nat, place: nat -> nat, at: nat, value: nat -> nat, i: nat)
    requires i < n && place(i) == at && value(i) > 0
    ensures SumWhere(n, place, at, value) > 0
  {
    if i < n - 1 { SumIsPositive(n - 1, place, at, value, i); }
  }

  /** A sum of values up to `most` for each unit counted is at most that much times the count. */
  lemma {:induction false} SumIsBounded(n: nat, place: nat -> nat, at: nat, value: nat -> nat, count: nat -> nat, most: nat)
    requires forall i :: 0 <= i < n ==> value(i) <= most * count(i)
    ensures SumWhere(n, place, at, value) <= most * SumWhere(n, place, at, count)
  {
    if n > 0 {
      SumIsBounded(n - 1, place, at, value, count, most);
      var before := SumWhere(n - 1, place, at, count);
      assert most * (before + count(n - 1)) == most * before + most * count(n - 1);
    }
  }

  lemma {:induction false} SumIsExact(n: nat, place: nat -> nat, at: nat, value: nat -> nat, count: nat -> nat, each: nat)
    requires forall i :: 0 <= i < n ==> value(i) == each * count(i)
    ensures SumWhere(n, place, at, value) == each * SumWhere(n, place, at, count)
  {
    if n > 0 {
      SumIsExact(n - 1, place, at, value, count, each);
      var before := SumWhere(n - 1, place, at, count);
      assert each * (before + count(n - 1)) == each * before + each * count(n - 1);
    }
  }

  /** A place that one place alone is sent to has that one's value. */
  lemma {:induction false} SumOfOne(n: nat, place: nat -> nat, at: nat, value: nat -> nat, i: nat)
    requires i < n && forall j: nat :: j < n ==> (place(j) == at <==> j == i)
    ensures SumWhere(n, place, at, value) == value(i)
  {
    if i < n - 1 { SumOfOne(n - 1, place, at, value, i); } else { SumStays(0, n - 1, place, at, value); }
  }
}
