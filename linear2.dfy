/**
 * Two-by-two linear algebra over the reals: the `numpy.linalg.solve` and
 * `numpy.linalg.inv` calls of the exponential fits, and the two-column
 * least-squares solve (`scipy.linalg.lstsq`) of the Gaussian fit, each stated
 * by the equations its result satisfies.
 */
module Linear2 {
  import opened Wrappers
  import opened Vectors

  /** The matrix [[a, b], [c, d]]. */
  datatype Mat2 = Mat2(a: real, b: real, c: real, d: real)

  /** A column of two entries; `fst` is component 0, `snd` component 1. */
  datatype Vec2 = Vec2(fst: real, snd: real)

  function Det(m: Mat2): real
  {
    m.a * m.d - m.b * m.c
  }

  function Apply(m: Mat2, v: Vec2): Vec2
  {
    Vec2(m.a * v.fst + m.b * v.snd, m.c * v.fst + m.d * v.snd)
  }

  function Mul(m: Mat2, n: Mat2): Mat2
  {
    Mat2(m.a * n.a + m.b * n.c, m.a * n.b + m.b * n.d,
         m.c * n.a + m.d * n.c, m.c * n.b + m.d * n.d)
  }

  const Identity: Mat2 := Mat2(1.0, 0.0, 0.0, 1.0)

  // Scalar facts about division, checked on their own.

  lemma {:induction false} DivCancel(x: real, y: real, z: real)
    requires z != 0.0 && x * z == y * z
    ensures x == y
  {
    assert (x - y) * z == 0.0;
  }

  lemma {:induction false} CramerRows(a: real, b: real, c: real, d: real, r: real, s: real)
    requires a * d - b * c != 0.0
    ensures a * ((r * d - b * s) / (a * d - b * c)) + b * ((a * s - c * r) / (a * d - b * c)) == r
    ensures c * ((r * d - b * s) / (a * d - b * c)) + d * ((a * s - c * r) / (a * d - b * c)) == s
  {
    var det := a * d - b * c;
    var x, y := (r * d - b * s) / det, (a * s - c * r) / det;
    assert x * det == r * d - b * s;
    assert y * det == a * s - c * r;
    assert (a * x + b * y) * det == r * det;
    DivCancel(a * x + b * y, r, det);
    assert (c * x + d * y) * det == s * det;
    DivCancel(c * x + d * y, s, det);
  }

  lemma {:induction false} CramerUnique(a: real, b: real, c: real, d: real, x: real, y: real, r: real, s: real)
    requires a * d - b * c != 0.0
    requires r == a * x + b * y && s == c * x + d * y
    ensures x == (r * d - b * s) / (a * d - b * c)
    ensures y == (a * s - c * r) / (a * d - b * c)
  {
    var det := a * d - b * c;
    assert r * d - b * s == x * det;
    assert a * s - c * r == y * det;
    MulDiv(x, det);
    MulDiv(y, det);
  }

  lemma {:induction false} MulDiv(x: real, z: real)
    requires z != 0.0
    ensures (x * z) / z == x
  {
  }

  /** The adjugate of [[a, b], [c, d]] scaled by `k`, the reciprocal of the determinant. */
  function Adjugate(a: real, b: real, c: real, d: real, k: real): Mat2
  {
    Mat2(d * k, -b * k, -c * k, a * k)
  }

  lemma {:induction false} AdjugateProducts(a: real, b: real, c: real, d: real, k: real)
    ensures Mul(Mat2(a, b, c, d), Adjugate(a, b, c, d, k)) == Mat2((a * d - b * c) * k, 0.0, 0.0, (a * d - b * c) * k)
    ensures Mul(Adjugate(a, b, c, d, k), Mat2(a, b, c, d)) == Mat2((a * d - b * c) * k, 0.0, 0.0, (a * d - b * c) * k)
  {
  }

  lemma {:induction false} Reciprocal(z: real)
    requires z != 0.0
    ensures z * (1.0 / z) == 1.0
  {
  }

  /**
   * `numpy.linalg.solve` on a 2x2 system: the unique solution by Cramer's
   * rule, or None where numpy raises LinAlgError for a singular matrix.
   */
  function Solve(m: Mat2, r: Vec2): (s: Option<Vec2>)
    ensures s.None? <==> Det(m) == 0.0
    ensures s.Some? ==> Apply(m, s.value) == r
  {
    var det := Det(m);
    if det == 0.0 then None
    else
      CramerRows(m.a, m.b, m.c, m.d, r.fst, r.snd);
      Some(Vec2((r.fst * m.d - m.b * r.snd) / det, (m.a * r.snd - m.c * r.fst) / det))
  }

  /** A nonsingular system has no solution other than the one Solve returns. */
  lemma {:induction false} SolveUnique(m: Mat2, r: Vec2, w: Vec2)
    requires Det(m) != 0.0 && Apply(m, w) == r
    ensures Solve(m, r) == Some(w)
  {
    var s := Solve(m, r).value;
    CramerUnique(m.a, m.b, m.c, m.d, w.fst, w.snd, r.fst, r.snd);
    assert s.fst == w.fst && s.snd == w.snd;
  }

  /**
   * `numpy.linalg.inv` on a 2x2 matrix: the adjugate over the determinant, or
   * None where numpy raises LinAlgError for a singular matrix.
   */
  function Inverse(m: Mat2): (inv: Option<Mat2>)
    ensures inv.None? <==> Det(m) == 0.0
    ensures inv.Some? ==> Mul(m, inv.value) == Identity && Mul(inv.value, m) == Identity
  {
    var det := Det(m);
    if det == 0.0 then None
    else
      AdjugateProducts(m.a, m.b, m.c, m.d, 1.0 / det);
      Reciprocal(det);
      Some(Adjugate(m.a, m.b, m.c, m.d, 1.0 / det))
  }

  /** Multiplying by the inverse solves the system: `inv(m).dot(r) == solve(m, r)`. */
  lemma {:induction false} InverseSolves(m: Mat2, r: Vec2)
    requires Det(m) != 0.0
    ensures Inverse(m).Some? && Solve(m, r).Some?
    ensures Apply(Inverse(m).value, r) == Solve(m, r).value
  {
    var n := Inverse(m).value;
    var w := Apply(n, r);
    assert Apply(m, w) == Apply(Mul(m, n), r);
    SolveUnique(m, r, w);
  }

  /** The Gram matrix `[u v]^T [u v]` of a two-column design. */
  function Gram(u: seq<real>, v: seq<real>): Mat2
    requires |u| == |v|
  {
    Mat2(SumSq(u), Dot(u, v), Dot(u, v), SumSq(v))
  }

  /** The right-hand side `[u v]^T b` of the normal equations. */
  function Moments(u: seq<real>, v: seq<real>, b: seq<real>): Vec2
    requires |u| == |v| == |b|
  {
    Vec2(Dot(u, b), Dot(v, b))
  }

  /** (p, q) satisfies the normal equations of the least-squares problem `[u v] (p, q) ~ b`. */
  predicate NormalEquations(u: seq<real>, v: seq<real>, b: seq<real>, x: Vec2)
    requires |u| == |v| == |b|
  {
    Apply(Gram(u, v), x) == Moments(u, v, b)
  }

  /** Cauchy-Schwarz in matrix form: a Gram determinant is never negative. */
  lemma {:induction false} GramDetNonneg(u: seq<real>, v: seq<real>)
    requires |u| == |v|
    ensures Det(Gram(u, v)) >= 0.0
  {
    CauchySchwarz(u, v);
  }

  /**
   * `ew` is the dot product of some vector `w` with the residual of `(p, q)`,
   * given the dot products `bw`, `uw`, `vw` of `w` with the data and the columns.
   */
  predicate ResidualMoment(ew: real, bw: real, uw: real, vw: real, p: real, q: real)
  {
    ew == bw - (p * uw + q * vw)
  }

  /** The dot product of any vector with a residual. */
  lemma {:induction false} ResidualDot(b: seq<real>, u: seq<real>, v: seq<real>, p: real, q: real, w: seq<real>)
    requires |u| == |v| == |b| == |w|
    ensures ResidualMoment(Dot(w, Residual(b, u, v, p, q)), Dot(w, b), Dot(u, w), Dot(v, w), p, q)
  {
    var c := Comb(p, u, q, v);
    var e := Residual(b, u, v, p, q);
    assert e == Comb(1.0, b, -1.0, c);
    calc {
      Dot(w, e);
    == { DotSym(w, e); }
      Dot(Comb(1.0, b, -1.0, c), w);
    == { DotComb(1.0, b, -1.0, c, w); }
      1.0 * Dot(b, w) + -1.0 * Dot(c, w);
    == { DotComb(p, u, q, v, w); DotSym(b, w); }
      Dot(w, b) - (p * Dot(u, w) + q * Dot(v, w));
    }
  }

  /** The moments of the residual: `[u v]^T e == m - G x` for `e = b - [u v] x`. */
  lemma {:induction false} ResidualMoments(u: seq<real>, v: seq<real>, b: seq<real>, x: Vec2)
    requires |u| == |v| == |b|
    ensures Moments(u, v, Residual(b, u, v, x.fst, x.snd))
         == Vec2(Moments(u, v, b).fst - Apply(Gram(u, v), x).fst, Moments(u, v, b).snd - Apply(Gram(u, v), x).snd)
  {
    var e := Residual(b, u, v, x.fst, x.snd);
    ResidualDot(b, u, v, x.fst, x.snd, u);
    ResidualDot(b, u, v, x.fst, x.snd, v);
    DotSym(v, u);
    MomentEntries(Dot(u, e), Dot(v, e), Dot(u, b), Dot(v, b), Dot(u, u), Dot(u, v), Dot(v, u), Dot(v, v), x.fst, x.snd,
                  Gram(u, v), Moments(u, v, b), x);
  }

  lemma {:induction false} MomentEntries(eu: real, ev: real, mu: real, mv: real, uu: real, uv: real, vu: real, vv: real,
                                         p: real, q: real, g: Mat2, m: Vec2, x: Vec2)
    requires ResidualMoment(eu, mu, uu, vu, p, q) && ResidualMoment(ev, mv, uv, vv, p, q) && uv == vu
    requires g == Mat2(uu, uv, uv, vv) && m == Vec2(mu, mv) && x == Vec2(p, q)
    ensures Vec2(eu, ev) == Vec2(m.fst - Apply(g, x).fst, m.snd - Apply(g, x).snd)
  {
  }

  /** The normal equations say exactly that the residual is orthogonal to both columns. */
  lemma {:induction false} NormalEquationsOrthogonal(u: seq<real>, v: seq<real>, b: seq<real>, x: Vec2)
    requires |u| == |v| == |b|
    ensures NormalEquations(u, v, b, x)
        <==> Dot(u, Residual(b, u, v, x.fst, x.snd)) == 0.0 && Dot(v, Residual(b, u, v, x.fst, x.snd)) == 0.0
  {
    ResidualMoments(u, v, b, x);
    DifferenceZero(Moments(u, v, b), Apply(Gram(u, v), x));
  }

  lemma {:induction false} DifferenceZero(m: Vec2, n: Vec2)
    ensures m == n <==> Vec2(m.fst - n.fst, m.snd - n.snd) == Vec2(0.0, 0.0)
  {
  }

  // The rank-deficient cases of the least-squares solve.

  lemma {:induction false} NullDirections(uu: real, uv: real, vv: real, det: real)
    requires det == uu * vv - uv * uv
    ensures QuadForm(uu, uv, vv, uv, -uu) == uu * det
    ensures QuadForm(uu, uv, vv, vv, -uv) == vv * det
  {
  }

  /**
   * The combinations `uv*u - uu*v` and `vv*u - uv*v` of the columns have
   * squared lengths proportional to the Gram determinant.
   */
  lemma {:induction false} NullCombinations(u: seq<real>, v: seq<real>)
    requires |u| == |v|
    ensures SumSq(Comb(Dot(u, v), u, -SumSq(u), v)) == SumSq(u) * Det(Gram(u, v))
    ensures SumSq(Comb(SumSq(v), u, -Dot(u, v), v)) == SumSq(v) * Det(Gram(u, v))
  {
    var uu, uv, vv := SumSq(u), Dot(u, v), SumSq(v);
    CombSumSq(u, v, uv, -uu);
    CombSumSq(u, v, vv, -uv);
    NullDirections(uu, uv, vv, Det(Gram(u, v)));
  }

  /**
   * The moments `m` lie in the range of the symmetric matrix `g`, in the form
   * that matters when `g` is singular: `m` is proportional to each column.
   */
  predicate InRange(g: Mat2, m: Vec2)
  {
    g.b * m.fst == g.a * m.snd && g.d * m.fst == g.b * m.snd
  }

  /** The combination `p * x + q * y` is zero. */
  predicate Vanishes(p: real, x: real, q: real, y: real)
  {
    p * x + q * y == 0.0
  }

  /** A combination of the columns with zero length is orthogonal to `b`, moment by moment. */
  lemma {:induction false} NullCombinationMoments(u: seq<real>, v: seq<real>, b: seq<real>, p: real, q: real)
    requires |u| == |v| == |b| && SumSq(Comb(p, u, q, v)) == 0.0
    ensures Vanishes(p, Dot(u, b), q, Dot(v, b))
  {
    NullOrthogonal(Comb(p, u, q, v), b);
    DotComb(p, u, q, v, b);
  }

  /** When the Gram matrix is singular, the moments lie in its range. */
  lemma {:induction false} MomentsInRange(u: seq<real>, v: seq<real>, b: seq<real>)
    requires |u| == |v| == |b| && Det(Gram(u, v)) == 0.0
    ensures InRange(Gram(u, v), Moments(u, v, b))
  {
    NullCombinations(u, v);
    NullCombinationMoments(u, v, b, Dot(u, v), -SumSq(u));
    NullCombinationMoments(u, v, b, SumSq(v), -Dot(u, v));
    RangeEntries(SumSq(u), Dot(u, v), SumSq(v), Dot(u, b), Dot(v, b), Gram(u, v), Moments(u, v, b));
  }

  lemma {:induction false} RangeEntries(uu: real, uv: real, vv: real, mu: real, mv: real, g: Mat2, m: Vec2)
    requires Vanishes(uv, mu, -uu, mv) && Vanishes(vv, mu, -uv, mv)
    requires g == Mat2(uu, uv, uv, vv) && m == Vec2(mu, mv)
    ensures InRange(g, m)
  {
  }

  /** Two zero columns: every coefficient pair, in particular zero, satisfies the normal equations. */
  lemma {:induction false} LstsqZeroColumns(u: seq<real>, v: seq<real>, b: seq<real>)
    requires |u| == |v| == |b| && SumSq(u) + SumSq(v) == 0.0
    ensures NormalEquations(u, v, b, Vec2(0.0, 0.0))
  {
    DotSelfNonneg(u);
    DotSelfNonneg(v);
    NullOrthogonal(u, b);
    NullOrthogonal(v, b);
  }

  /**
   * A rank-one Gram matrix (its moments in its range, by `MomentsInRange`):
   * the pseudo-inverse solution `m / trace` satisfies the normal equations.
   */
  lemma {:induction false} LstsqRankOne(u: seq<real>, v: seq<real>, b: seq<real>)
    requires |u| == |v| == |b|
    requires var g := Gram(u, v); g.a + g.d != 0.0 && InRange(g, Moments(u, v, b))
    ensures var g, m := Gram(u, v), Moments(u, v, b);
      NormalEquations(u, v, b, Vec2(m.fst / (g.a + g.d), m.snd / (g.a + g.d)))
  {
    RankOneSolution(Gram(u, v), Moments(u, v, b));
  }

  lemma {:induction false} RankOneSolution(g: Mat2, m: Vec2)
    requires g.b == g.c && g.a + g.d != 0.0 && InRange(g, m)
    ensures Apply(g, Vec2(m.fst / (g.a + g.d), m.snd / (g.a + g.d))) == m
  {
    var t := g.a + g.d;
    var p, q := m.fst / t, m.snd / t;
    assert p * t == m.fst && q * t == m.snd;
    assert (g.a * p + g.b * q) * t == g.a * m.fst + g.b * m.snd;
    DivCancel(g.a * p + g.b * q, m.fst, t);
    assert (g.c * p + g.d * q) * t == g.c * m.fst + g.d * m.snd;
    DivCancel(g.c * p + g.d * q, m.snd, t);
  }

  /**
   * `scipy.linalg.lstsq` with a two-column design `[u v]`: the minimum-norm
   * least-squares coefficients. With a nonsingular Gram matrix that is the
   * unique solution of the normal equations; with a rank-one Gram matrix it is
   * the pseudo-inverse solution `m / trace`; with two zero columns it is zero.
   */
  function Lstsq(u: seq<real>, v: seq<real>, b: seq<real>): (x: Vec2)
    requires |u| == |v| == |b|
    ensures NormalEquations(u, v, b, x)
  {
    var g, m := Gram(u, v), Moments(u, v, b);
    var t := g.a + g.d;
    if Det(g) != 0.0 then
      Solve(g, m).value
    else if t == 0.0 then
      LstsqZeroColumns(u, v, b);
      Vec2(0.0, 0.0)
    else
      MomentsInRange(u, v, b);
      LstsqRankOne(u, v, b);
      Vec2(m.fst / t, m.snd / t)
  }

  /**
   * Any solution of the normal equations minimises the sum of squared
   * residuals: no other coefficients fit `b` better.
   */
  lemma {:induction false} NormalEquationsMinimise(u: seq<real>, v: seq<real>, b: seq<real>, x: Vec2, p: real, q: real)
    requires |u| == |v| == |b| && NormalEquations(u, v, b, x)
    ensures SumSq(Residual(b, u, v, x.fst, x.snd)) <= SumSq(Residual(b, u, v, p, q))
  {
    var e := Residual(b, u, v, x.fst, x.snd);
    var d := Comb(p - x.fst, u, q - x.snd, v);
    ResidualShift(b, u, v, x.fst, x.snd, p, q);
    NormalEquationsOrthogonal(u, v, b, x);
    calc {
      SumSq(Residual(b, u, v, p, q));
    == { CombSumSq(e, d, 1.0, -1.0); }
      QuadForm(SumSq(e), Dot(e, d), SumSq(d), 1.0, -1.0);
    == { UnitQuadForm(SumSq(e), Dot(e, d), SumSq(d)); }
      SumSq(e) - 2.0 * Dot(e, d) + SumSq(d);
    == { DotSym(e, d); DotComb(p - x.fst, u, q - x.snd, v, e); DotSym(u, e); DotSym(v, e); }
      SumSq(e) + SumSq(d);
    >= { DotSelfNonneg(d); }
      SumSq(e);
    }
  }

  /** Moving the coefficients from (p, q) to (p2, q2) subtracts the combination of the differences. */
  lemma {:induction false} ResidualShift(b: seq<real>, u: seq<real>, v: seq<real>, p: real, q: real, p2: real, q2: real)
    requires |u| == |v| == |b|
    ensures Residual(b, u, v, p2, q2) == Comb(1.0, Residual(b, u, v, p, q), -1.0, Comb(p2 - p, u, q2 - q, v))
  {
    var l, r := Residual(b, u, v, p2, q2), Comb(1.0, Residual(b, u, v, p, q), -1.0, Comb(p2 - p, u, q2 - q, v));
    forall i | 0 <= i < |b| ensures l[i] == r[i] {
      ShiftStep(b[i], u[i], v[i], p, q, p2, q2);
    }
  }

  lemma {:induction false} ShiftStep(bi: real, ui: real, vi: real, p: real, q: real, p2: real, q2: real)
    ensures bi - (p2 * ui + q2 * vi) == 1.0 * (bi - (p * ui + q * vi)) + -1.0 * ((p2 - p) * ui + (q2 - q) * vi)
  {
  }

  /** Data that a combination of the columns fits exactly satisfy the normal equations with its coefficients. */
  lemma {:induction false} GramSystemExact(u: seq<real>, v: seq<real>, p: real, q: real)
    requires |u| == |v|
    ensures Apply(Gram(u, v), Vec2(p, q)) == Moments(u, v, Comb(p, u, q, v))
  {
    var b := Comb(p, u, q, v);
    DotComb(p, u, q, v, u);
    DotComb(p, u, q, v, v);
    DotSym(b, u);
    DotSym(b, v);
    DotSym(v, u);
  }

  /** Data that a combination of the columns fits exactly are recovered exactly when the columns are independent. */
  lemma {:induction false} LstsqExact(u: seq<real>, v: seq<real>, p: real, q: real)
    requires |u| == |v| && Det(Gram(u, v)) != 0.0
    ensures Lstsq(u, v, Comb(p, u, q, v)) == Vec2(p, q)
  {
    var b := Comb(p, u, q, v);
    GramSystemExact(u, v, p, q);
    SolveUnique(Gram(u, v), Moments(u, v, b), Vec2(p, q));
    assert Lstsq(u, v, b) == Solve(Gram(u, v), Moments(u, v, b)).value;
  }
}
