/** Comparing quotients of counts by cross-multiplication. */
module Ratios {

  lemma ScaleOrder(x: real, y: real, k: real)
    requires k > 0.0
    ensures x <= y <==> x * k <= y * k
  {
    if x < y { assert (y - x) * k > 0.0; }
    if y < x { assert (x - y) * k > 0.0; }
  }

  lemma RealCross(a: real, n: real, b: real, m: real)
    requires n > 0.0 && m > 0.0
    ensures a / n <= b / m <==> a * m <= b * n
  {
    var x, y := a / n, b / m;
    assert x * n == a && y * m == b;
    assert a * m == x * (n * m) && b * n == y * (n * m);
    ScaleOrder(x, y, n * m);
  }

  lemma ProductOfCounts(a: int, b: int)
    ensures a as real * b as real == (a * b) as real
  {
  }

  lemma {:induction false} Cross(a: nat, n: nat, b: nat, m: nat)
    requires 0 < n && 0 < m
    ensures a as real / n as real <= b as real / m as real <==> a * m <= b * n
  {
    RealCross(a as real, n as real, b as real, m as real);
    ProductOfCounts(a, m);
    ProductOfCounts(b, n);
  }

  lemma {:induction false} InUnit(a: nat, n: nat)
    requires a <= n && 0 < n
    ensures 0.0 <= a as real / n as real <= 1.0
    ensures a as real / n as real == 1.0 <==> a == n
  {
    var q := a as real / n as real;
    assert q * n as real == a as real;
    Cross(0, 1, a, n);
    Cross(a, n, 1, 1);
    Cross(1, 1, a, n);
  }
}
