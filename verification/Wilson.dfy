/** The Wilson 95% interval an arm's pass rate is shown with
    (gridseak-cli/src/audit.rs, `ArmSummary::pass_range`), over the reals. */
module Wilson {

  const Z: real := 1.96

  /** `Z * Z / n`: how far `n` runs pull the interval towards one half. */
  function Pull(n: nat): (s: real)
    requires n > 0
    ensures s > 0.0
  {
    Z * Z / n as real
  }

  function Rate(k: nat, n: nat): (p: real)
    requires 0 < n && k <= n
    ensures 0.0 <= p <= 1.0
  {
    RateInUnit(k as real, n as real);
    k as real / n as real
  }

  lemma RateInUnit(k: real, n: real)
    requires 0.0 <= k <= n && n > 0.0
    ensures 0.0 <= k / n <= 1.0
  {
  }

  /** What the source takes the square root of. */
  function Radicand(k: nat, n: nat): real
    requires 0 < n && k <= n
  {
    var p, r := Rate(k, n), n as real;
    p * (1.0 - p) / r + Z * Z / (4.0 * r * r)
  }

  function Centre(k: nat, n: nat): real
    requires 0 < n && k <= n
  {
    (Rate(k, n) + Z * Z / (2.0 * n as real)) / (1.0 + Pull(n))
  }

  /** Half the width, given `root`, the square root of `Radicand`. */
  function Half(n: nat, root: real): real
    requires 0 < n
  {
    Z * root / (1.0 + Pull(n))
  }

  ghost predicate IsRoot(k: nat, n: nat, root: real) {
    0 < n && k <= n && root >= 0.0 && root * root == Radicand(k, n)
  }

  /** `f64::round`: half away from zero. */
  function Round(x: real): int {
    if x >= 0.0 then (x + 0.5).Floor else -((0.5 - x).Floor)
  }

  function Max(a: real, b: real): real {
    if a < b then b else a
  }

  function Min(a: real, b: real): real {
    if a < b then a else b
  }

  /** The shown range, in whole percents; `(0, 0)` when nothing ran. */
  function PassRange(k: nat, n: nat, root: real): (int, int)
    requires k <= n
  {
    if n == 0 then (0, 0)
    else
      var c, h := Centre(k, n), Half(n, root);
      (Round(Max(c - h, 0.0) * 100.0), Round(Min(c + h, 1.0) * 100.0))
  }

  // ----- the interval is the set of rates a score test does not reject -----

  /** A true pass rate `x` is within `Z` standard errors of the observed one. */
  ghost predicate NotRejected(k: nat, n: nat, x: real)
    requires 0 < n && k <= n
  {
    var d := Rate(k, n) - x;
    n as real * (d * d) <= Z * Z * (x * (1.0 - x))
  }

  /** Completing the square: the interval inequality is the score inequality. */
  lemma Completed(p: real, s: real, x: real, u: real)
    requires s > 0.0 && u * u == s * (p * (1.0 - p)) + s * s / 4.0
    ensures var t := (1.0 + s) * x - (p + s / 2.0);
      t * t <= u * u <==> (p - x) * (p - x) - s * (x * (1.0 - x)) <= 0.0
  {
    var t := (1.0 + s) * x - (p + s / 2.0);
    var excess := (p - x) * (p - x) - s * (x * (1.0 - x));
    assert t * t - u * u == (1.0 + s) * excess;
    SignOfProduct(1.0 + s, excess);
  }

  lemma ProductSign(a: real, b: real)
    ensures a > 0.0 && b > 0.0 ==> a * b > 0.0
    ensures a >= 0.0 && b >= 0.0 ==> a * b >= 0.0
  {
  }

  lemma SquareOrder(t: real, u: real)
    requires u >= 0.0
    ensures t * t <= u * u <==> -u <= t <= u
  {
    var a, b := u - t, u + t;
    assert a * b == u * u - t * t;
    ProductSign(a, b);
    ProductSign(-a, b);
    ProductSign(a, -b);
    assert (-a) * b == -(a * b) && a * (-b) == -(a * b);
  }

  lemma SignOfProduct(a: real, b: real)
    requires a > 0.0
    ensures a * b <= 0.0 <==> b <= 0.0
  {
  }

  lemma DivideBound(a: real, t: real, u: real, x: real, c: real, h: real, m: real)
    requires a > 0.0 && t == a * x - m && c == m / a && h == u / a
    ensures -u <= t <= u <==> c - h <= x <= c + h
  {
    assert a * c == m && a * h == u;
    assert t - u == a * (x - c - h);
    assert t + u == a * (x - c + h);
    SignOfProduct(a, x - c - h);
    SignOfProduct(a, c - h - x);
    assert a * (c - h - x) == -(t + u);
  }

  lemma RootScaled(k: nat, n: nat, root: real)
    requires IsRoot(k, n, root)
    ensures var p, s := Rate(k, n), Pull(n);
      var u := Z * root;
      u * u == s * (p * (1.0 - p)) + s * s / 4.0
  {
    var p, r := Rate(k, n), n as real;
    var q := p * (1.0 - p);
    calc {
      (Z * root) * (Z * root);
      (Z * Z) * (root * root);
      (Z * Z) * (q / r + Z * Z / (4.0 * r * r));
      (Z * Z) * (q / r) + (Z * Z) * (Z * Z / (4.0 * r * r));
      { ScaleDivide(Z * Z, q, r); SquareQuarter(Z * Z, r); }
      (Z * Z / r) * q + (Z * Z / r) * (Z * Z / r) / 4.0;
    }
  }

  lemma ScaleDivide(a: real, q: real, r: real)
    requires r > 0.0
    ensures a * (q / r) == (a / r) * q
  {
    assert (q / r) * r == q && (a / r) * r == a;
    assert r * (a * (q / r)) == a * q && r * ((a / r) * q) == a * q;
  }

  lemma SquareQuarter(a: real, r: real)
    requires r > 0.0
    ensures a * (a / (4.0 * r * r)) == (a / r) * (a / r) / 4.0
  {
    var x := a / r;
    assert x * r == a;
    assert 4.0 * r * r > 0.0;
    var y := a / (4.0 * r * r);
    assert y * (4.0 * r * r) == a == x * r;
    assert (y * (4.0 * r) - x) * r == 0.0;
    assert y * (4.0 * r) == x;
    assert a * y == x * r * y;
    assert x * (y * (4.0 * r)) == x * x;
  }

  lemma ScoreForm(k: nat, n: nat, x: real)
    requires 0 < n && k <= n
    ensures var p, s := Rate(k, n), Pull(n);
      NotRejected(k, n, x) <==> (p - x) * (p - x) - s * (x * (1.0 - x)) <= 0.0
  {
    var p, s, r := Rate(k, n), Pull(n), n as real;
    var dd, v := (p - x) * (p - x), x * (1.0 - x);
    SignOfProduct(r, dd - s * v);
    Distribute(r, dd, s, v);
    assert s * r == Z * Z;
  }

  lemma IntervalForm(k: nat, n: nat, root: real, x: real)
    requires IsRoot(k, n, root)
    ensures var p, s, u := Rate(k, n), Pull(n), Z * root;
      var t := (1.0 + s) * x - (p + s / 2.0);
      Centre(k, n) - Half(n, root) <= x <= Centre(k, n) + Half(n, root) <==> t * t <= u * u
  {
    var p, s, r := Rate(k, n), Pull(n), n as real;
    var m, u := p + s / 2.0, Z * root;
    var t := (1.0 + s) * x - m;
    HalfOf(Z * Z, r);
    DivideBound(1.0 + s, t, u, x, Centre(k, n), Half(n, root), m);
    SquareOrder(t, u);
  }

  /** The interval holds exactly the rates within `Z` standard errors of the observation. */
  lemma {:induction false} IntervalIsScoreTest(k: nat, n: nat, root: real, x: real)
    requires IsRoot(k, n, root)
    ensures Centre(k, n) - Half(n, root) <= x <= Centre(k, n) + Half(n, root) <==> NotRejected(k, n, x)
  {
    hide Centre, Half, NotRejected;
    IntervalForm(k, n, root, x);
    RootScaled(k, n, root);
    Completed(Rate(k, n), Pull(n), x, Z * root);
    ScoreForm(k, n, x);
  }

  lemma Distribute(r: real, a: real, s: real, v: real)
    ensures r * (a - s * v) == r * a - (s * r) * v
  {
  }

  lemma HalfOf(a: real, r: real)
    requires r > 0.0
    ensures a / (2.0 * r) == (a / r) / 2.0
  {
    assert (a / r) * r == a;
    assert (a / (2.0 * r)) * (2.0 * r) == a;
  }

  lemma AcceptedInUnit(k: nat, n: nat, x: real)
    requires 0 < n && k <= n && NotRejected(k, n, x)
    ensures 0.0 <= x <= 1.0
  {
    var d := Rate(k, n) - x;
    assert d * d >= 0.0 && n as real * (d * d) >= 0.0;
    OutsideUnit(x);
  }

  lemma OutsideUnit(x: real)
    ensures x < 0.0 || x > 1.0 ==> x * (1.0 - x) < 0.0
  {
  }

  lemma HalfNonNegative(k: nat, n: nat, root: real)
    requires IsRoot(k, n, root)
    ensures Half(n, root) >= 0.0
  {
    var h, a := Half(n, root), 1.0 + Pull(n);
    assert h * a == Z * root;
  }

  lemma InsideMeansInUnit(k: nat, n: nat, root: real, x: real)
    requires IsRoot(k, n, root)
    requires Centre(k, n) - Half(n, root) <= x <= Centre(k, n) + Half(n, root)
    ensures 0.0 <= x <= 1.0
  {
    IntervalIsScoreTest(k, n, root, x);
    AcceptedInUnit(k, n, x);
  }

  lemma RateNotRejected(k: nat, n: nat)
    requires 0 < n && k <= n
    ensures NotRejected(k, n, Rate(k, n))
  {
    var p := Rate(k, n);
    ProductSign(p, 1.0 - p);
    assert p - p == 0.0;
    assert Z * Z * (p * (1.0 - p)) >= 0.0;
  }

  /** The bounds bracket the observed rate inside [0, 1], so the source's clamps never act. */
  lemma {:induction false} BoundsBracketRate(k: nat, n: nat, root: real)
    requires IsRoot(k, n, root)
    ensures 0.0 <= Centre(k, n) - Half(n, root) <= Rate(k, n) <= Centre(k, n) + Half(n, root) <= 1.0
  {
    RateNotRejected(k, n);
    IntervalIsScoreTest(k, n, root, Rate(k, n));
    HalfNonNegative(k, n, root);
    InsideMeansInUnit(k, n, root, Centre(k, n) - Half(n, root));
    InsideMeansInUnit(k, n, root, Centre(k, n) + Half(n, root));
  }

  /** The whole percents shown bracket the rounded pass rate. */
  lemma {:induction false} ShownRangeBrackets(k: nat, n: nat, root: real)
    requires IsRoot(k, n, root)
    ensures var (lo, hi) := PassRange(k, n, root);
      0 <= lo <= Round(Rate(k, n) * 100.0) <= hi <= 100
  {
    BoundsBracketRate(k, n, root);
  }
}
