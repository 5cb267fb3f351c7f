/** How widely a file's commits are spread over authors
    (graphengine-git-signals/src/ownership.rs), over the reals. */
module Ownership {
  import Ratios

  /** Sum of `f(count)` over the authors of a table. */
  ghost function Total(m: map<string, nat>, f: nat -> nat): nat
    decreases |m|
  {
    if m == map[] then 0
    else
      var k :| k in m;
      f(m[k]) + Total(m - {k}, f)
  }

  lemma {:induction false} TotalRemove(m: map<string, nat>, f: nat -> nat, k: string)
    requires k in m
    ensures Total(m, f) == f(m[k]) + Total(m - {k}, f)
    decreases |m|
  {
    var j :| j in m && Total(m, f) == f(m[j]) + Total(m - {j}, f);
    if j != k {
      TotalRemove(m - {j}, f, k);
      TotalRemove(m - {k}, f, j);
      assert m - {j} - {k} == m - {k} - {j};
    }
  }

  /** All commits, and the sum of squared commit counts. */
  ghost function Commits(m: map<string, nat>): nat { Total(m, (c: nat) => c) }

  ghost function Squares(m: map<string, nat>): nat { Total(m, (c: nat) => c * c) }

  /** A table is one author's entry and the rest. */
  lemma {:induction false} Peel(m: map<string, nat>, k: string)
    requires k in m
    ensures var rest := m - {k};
      && Commits(m) == m[k] + Commits(rest)
      && Squares(m) == m[k] * m[k] + Squares(rest)
      && |m| == |rest| + 1
      && forall j :: j in m <==> j == k || j in rest
  {
    TotalRemove(m, (c: nat) => c, k);
    TotalRemove(m, (c: nat) => c * c, k);
  }

  ghost function Share(c: nat, total: nat): real
    requires total > 0
  {
    c as real / total as real
  }

  ghost function TotalReal(m: map<string, nat>, f: nat -> real): real
    decreases |m|
  {
    if m == map[] then 0.0
    else
      var k :| k in m;
      f(m[k]) + TotalReal(m - {k}, f)
  }

  ghost function SquaredShare(c: nat, total: nat): real
    requires total > 0
  {
    Share(c, total) * Share(c, total)
  }

  ghost function ShareSquares(m: map<string, nat>, total: nat): real
    requires total > 0
  {
    TotalReal(m, (c: nat) => SquaredShare(c, total))
  }

  ghost function Clamp(x: real): real {
    if x < 0.0 then 0.0 else if x > 1.0 then 1.0 else x
  }

  /** One minus the sum of squared commit shares, clamped to [0, 1]; 0 without commits. */
  ghost function Dispersion(m: map<string, nat>): real {
    if Commits(m) == 0 then 0.0 else Clamp(1.0 - ShareSquares(m, Commits(m)))
  }

  lemma SquaredShareScaled(c: nat, t: nat)
    requires t > 0
    ensures SquaredShare(c, t) * (t * t) as real == (c * c) as real
  {
    var s := Share(c, t);
    assert s * t as real == c as real;
    assert (t * t) as real == t as real * t as real;
    assert s * s * (t as real * t as real) == (s * t as real) * (s * t as real);
  }

  lemma Distribute(a: real, b: real, scale: real, x: nat, y: nat)
    requires Scales(a, scale, x) && Scales(b, scale, y)
    ensures Scales(a + b, scale, x + y)
  {
  }

  lemma {:induction false} TotalRealUnfold(m: map<string, nat>, f: nat -> real) returns (k: string)
    requires m != map[]
    ensures k in m && TotalReal(m, f) == f(m[k]) + TotalReal(m - {k}, f)
  {
    k :| k in m && TotalReal(m, f) == f(m[k]) + TotalReal(m - {k}, f);
  }

  /** `x` times `scale` is the count `n`. */
  ghost predicate Scales(x: real, scale: real, n: nat) {
    x * scale == n as real
  }

  lemma {:induction false} TotalScaled(m: map<string, nat>, f: nat -> real, g: nat -> nat, scale: real)
    requires forall c: nat :: Scales(f(c), scale, g(c))
    ensures Scales(TotalReal(m, f), scale, Total(m, g))
    decreases |m|
  {
    if m == map[] {
      assert Total(m, g) == 0 && TotalReal(m, f) == 0.0;
    } else {
      var k := TotalRealUnfold(m, f);
      var rest, c := m - {k}, m[k];
      TotalScaled(rest, f, g, scale);
      TotalRemove(m, g, k);
      assert Scales(f(c), scale, g(c));
      Distribute(f(c), TotalReal(rest, f), scale, g(c), Total(rest, g));
    }
  }

  lemma {:induction false} SharesAreSquares(m: map<string, nat>, t: nat)
    requires t > 0
    ensures ShareSquares(m, t) == Squares(m) as real / (t * t) as real
  {
    forall c: nat ensures Scales(SquaredShare(c, t), (t * t) as real, c * c) { SquaredShareScaled(c, t); }
    TotalScaled(m, (c: nat) => SquaredShare(c, t), (c: nat) => c * c, (t * t) as real);
    assert t * t > 0;
  }

  // ----- the two extremes -----

  lemma SquareOfSumStep(x: nat, t: nat)
    ensures (x + t) * (x + t) == x * x + t * t + 2 * (x * t)
    ensures x * t >= 0 && (x * t == 0 <==> x == 0 || t == 0)
  {
  }

  lemma {:induction false} SquareOfSum(m: map<string, nat>)
    ensures Squares(m) <= Commits(m) * Commits(m)
    ensures Squares(m) == Commits(m) * Commits(m) <==> Commits(m) == 0 || exists k :: k in m && m[k] == Commits(m)
    decreases |m|
  {
    if m != map[] {
      var k :| k in m;
      var rest := m - {k};
      Peel(m, k);
      SquareOfSum(rest);
      SquareOfSumStep(m[k], Commits(rest));
      OneHolder(m, k);
    }
  }

  /** If somebody holds every commit of a table with commits, the others hold none. */
  lemma {:induction false} OneHolder(m: map<string, nat>, k: string)
    requires k in m
    ensures var rest := m - {k};
      Commits(m) > 0 ==> ((exists j :: j in m && m[j] == Commits(m)) <==>
        Commits(rest) == 0 || (m[k] == 0 && exists j :: j in rest && rest[j] == Commits(rest)))
  {
    var rest := m - {k};
    Peel(m, k);
    if j :| j in m && m[j] == Commits(m) && j != k {
      Peel(rest, j);
      assert j in rest && rest[j] == Commits(rest);
    }
    if Commits(rest) == 0 { assert m[k] == Commits(m); }
    if j :| j in rest && rest[j] == Commits(rest) && m[k] == 0 { assert m[j] == Commits(m); }
  }

  /** The sum of `(c - x)^2` over `n` counts `c` with sum `t` and square sum `q`. */
  ghost function Spread(q: nat, n: nat, t: nat, x: nat): int {
    q + n * (x * x) - 2 * x * t
  }

  lemma SpreadStep(q: nat, n: nat, t: nat, x: nat, y: nat)
    ensures Spread(y * y + q, n + 1, y + t, x) == Spread(q, n, t, x) + (y - x) * (y - x)
    ensures (y - x) * (y - x) >= 0 && ((y - x) * (y - x) == 0 <==> y == x)
  {
  }

  lemma {:induction false} SpreadAround(m: map<string, nat>, x: nat)
    ensures Spread(Squares(m), |m|, Commits(m), x) >= 0
    ensures Spread(Squares(m), |m|, Commits(m), x) == 0 <==> forall k :: k in m ==> m[k] == x
    decreases |m|
  {
    if m != map[] {
      var k :| k in m;
      var rest := m - {k};
      Peel(m, k);
      SpreadAround(rest, x);
      SpreadStep(Squares(rest), |rest|, Commits(rest), x, m[k]);
    }
  }

  ghost predicate EqualShares(m: map<string, nat>) {
    forall j, k :: j in m && k in m ==> m[j] == m[k]
  }

  lemma CauchyStep(q: nat, n: nat, t: nat, x: nat)
    ensures (n + 1) * (x * x + q) - (x + t) * (x + t) == (n * q - t * t) + Spread(q, n, t, x)
  {
  }

  /** Cauchy-Schwarz, with its equality case. */
  lemma {:induction false} CauchySchwarz(m: map<string, nat>)
    ensures Commits(m) * Commits(m) <= |m| * Squares(m)
    ensures Commits(m) * Commits(m) == |m| * Squares(m) <==> EqualShares(m)
    decreases |m|
  {
    if m != map[] {
      var k :| k in m;
      var rest := m - {k};
      Peel(m, k);
      CauchySchwarz(rest);
      SpreadAround(rest, m[k]);
      CauchyStep(Squares(rest), |rest|, Commits(rest), m[k]);
      assert EqualShares(m) <==> EqualShares(rest) && forall j :: j in rest ==> rest[j] == m[k];
    }
  }

  /** The score lies between 0 and `1 - 1/n`, so the clamp never acts; it is 0 exactly when one
      author made every commit and `1 - 1/n` exactly when all made equally many. */
  lemma {:induction false} DispersionRange(m: map<string, nat>)
    requires Commits(m) > 0
    ensures |m| > 0
    ensures Dispersion(m) == 1.0 - ShareSquares(m, Commits(m))
    ensures 0.0 <= Dispersion(m) <= 1.0 - 1.0 / |m| as real
    ensures Dispersion(m) == 0.0 <==> exists k :: k in m && m[k] == Commits(m)
    ensures Dispersion(m) == 1.0 - 1.0 / |m| as real <==> EqualShares(m)
  {
    var t, q, n := Commits(m), Squares(m), |m|;
    SharesAreSquares(m, t);
    SquareOfSum(m);
    CauchySchwarz(m);
    assert t * t > 0;
    Ratios.InUnit(q, t * t);
    Ratios.Cross(1, n, q, t * t);
    Ratios.Cross(q, t * t, 1, n);
    assert t * t == 1 * (t * t) && q * n == n * q;
  }
}
