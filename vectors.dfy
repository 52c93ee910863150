/**
 * Real vectors as sequences: the sums and dot products that the fits build
 * with numpy (`v.sum()`, `(u * v).sum()`, `u.dot(v)`), and the algebra of
 * sums of squares that the least-squares arguments rest on.
 */
module Vectors {

  /** `v.sum()`. */
  function Sum(v: seq<real>): real
    decreases |v|
  {
    if |v| == 0 then 0.0 else v[0] + Sum(v[1..])
  }

  /** `(u * v).sum()`, equivalently `u.dot(v)`. */
  function Dot(u: seq<real>, v: seq<real>): real
    requires |u| == |v|
    decreases |u|
  {
    if |u| == 0 then 0.0 else u[0] * v[0] + Dot(u[1..], v[1..])
  }

  /** The sum of squared entries, `square(v).sum()`. */
  function SumSq(v: seq<real>): real
  {
    Dot(v, v)
  }

  function Ones(n: nat): (r: seq<real>)
    ensures |r| == n
    ensures forall i :: 0 <= i < n ==> r[i] == 1.0
  {
    seq(n, _ => 1.0)
  }

  function Zeros(n: nat): (r: seq<real>)
    ensures |r| == n
    ensures forall i :: 0 <= i < n ==> r[i] == 0.0
  {
    seq(n, _ => 0.0)
  }

  /** `v - v[0]`: the vector re-anchored so that its first entry is zero. */
  function Shifted(v: seq<real>): (r: seq<real>)
    requires |v| > 0
    ensures |r| == |v| && r[0] == 0.0
    ensures forall i :: 0 <= i < |v| ==> r[i] == v[i] - v[0]
  {
    seq(|v|, i requires 0 <= i < |v| => v[i] - v[0])
  }

  /** The linear combination `p*u + q*v`. */
  function Comb(p: real, u: seq<real>, q: real, v: seq<real>): (r: seq<real>)
    requires |u| == |v|
    ensures |r| == |u|
    ensures forall i :: 0 <= i < |u| ==> r[i] == p * u[i] + q * v[i]
  {
    seq(|u|, i requires 0 <= i < |u| => p * u[i] + q * v[i])
  }

  /** The residual `b - (p*u + q*v)` of a two-column linear model. */
  function Residual(b: seq<real>, u: seq<real>, v: seq<real>, p: real, q: real): (r: seq<real>)
    requires |u| == |v| == |b|
    ensures |r| == |b|
    ensures forall i :: 0 <= i < |b| ==> r[i] == b[i] - (p * u[i] + q * v[i])
  {
    seq(|b|, i requires 0 <= i < |b| => b[i] - (p * u[i] + q * v[i]))
  }

  /** The quadratic form `d1^2 uu + 2 d1 d2 uv + d2^2 vv` of a 2x2 Gram matrix. */
  function QuadForm(uu: real, uv: real, vv: real, d1: real, d2: real): real
  {
    d1 * d1 * uu + 2.0 * d1 * d2 * uv + d2 * d2 * vv
  }

  // Scalar facts, kept apart so that each nonlinear step is checked on its own.

  lemma {:induction false} SquareNonneg(a: real)
    ensures a * a >= 0.0
  {
  }

  lemma {:induction false} SquarePositive(a: real)
    requires a != 0.0
    ensures a * a > 0.0
  {
  }

  lemma {:induction false} SquareZero(a: real)
    requires a * a <= 0.0
    ensures a == 0.0
  {
    if a != 0.0 {
      calc {
        0.0;
      < { SquarePositive(a); }
        a * a;
      <=
        0.0;
      }
    }
  }

  lemma {:induction false} PositiveFactor(a: real, b: real)
    requires a > 0.0 && a * b >= 0.0
    ensures b >= 0.0
  {
  }

  /** Multiplying by a positive factor keeps the sign. */
  lemma {:induction false} SignOfProduct(a: real, p: real)
    ensures p > 0.0 ==> (a * p > 0.0 <==> a > 0.0) && (a * p < 0.0 <==> a < 0.0)
  {
    if p > 0.0 && a * p > 0.0 {
      PositiveFactor(p, a);
    }
    if p > 0.0 && a * p < 0.0 {
      PositiveFactor(p, -a);
    }
  }

  lemma {:induction false} CombStep(p: real, q: real, a: real, c: real, w: real, x: real, y: real)
    ensures (p * a + q * c) * w + (p * x + q * y) == p * (a * w + x) + q * (c * w + y)
  {
  }

  lemma {:induction false} QuadStep(p: real, q: real, a: real, c: real, uu: real, uv: real, vv: real, h: real)
    requires h == p * a + q * c
    ensures h * h + QuadForm(uu, uv, vv, p, q)
         == QuadForm(a * a + uu, a * c + uv, c * c + vv, p, q)
  {
  }

  lemma {:induction false} UnitQuadForm(bb: real, bc: real, cc: real)
    ensures QuadForm(bb, bc, cc, 1.0, -1.0) == bb - 2.0 * bc + cc
  {
  }

  lemma {:induction false} CombTail(p: real, u: seq<real>, q: real, v: seq<real>)
    requires |u| == |v| > 0
    ensures Comb(p, u, q, v)[1..] == Comb(p, u[1..], q, v[1..])
  {
    var c, d := Comb(p, u, q, v)[1..], Comb(p, u[1..], q, v[1..]);
    forall i | 0 <= i < |c| ensures c[i] == d[i] {
      assert u[1..][i] == u[i + 1] && v[1..][i] == v[i + 1];
    }
  }

  lemma {:induction false} DotSym(u: seq<real>, v: seq<real>)
    requires |u| == |v|
    ensures Dot(u, v) == Dot(v, u)
  {
    if |u| > 0 {
      DotSym(u[1..], v[1..]);
    }
  }

  lemma {:induction false} DotSelfNonneg(u: seq<real>)
    ensures SumSq(u) >= 0.0
  {
    if |u| > 0 {
      DotSelfNonneg(u[1..]);
      SquareNonneg(u[0]);
    }
  }

  /** A vector with a nonzero entry has a positive sum of squares. */
  lemma {:induction false} DotSelfPositive(u: seq<real>, k: nat)
    requires k < |u| && u[k] != 0.0
    ensures SumSq(u) > 0.0
  {
    if k == 0 {
      calc {
        SumSq(u);
      ==
        u[0] * u[0] + SumSq(u[1..]);
      >= { DotSelfNonneg(u[1..]); }
        u[0] * u[0];
      > { SquarePositive(u[0]); }
        0.0;
      }
    } else {
      calc {
        SumSq(u);
      ==
        u[0] * u[0] + SumSq(u[1..]);
      >= { SquareNonneg(u[0]); }
        SumSq(u[1..]);
      > { DotSelfPositive(u[1..], k - 1); }
        0.0;
      }
    }
  }

  /** Dot products are linear in their first argument. */
  lemma {:induction false} DotComb(p: real, u: seq<real>, q: real, v: seq<real>, w: seq<real>)
    requires |u| == |v| == |w|
    ensures Dot(Comb(p, u, q, v), w) == p * Dot(u, w) + q * Dot(v, w)
  {
    if |u| > 0 {
      CombTail(p, u, q, v);
      DotComb(p, u[1..], q, v[1..], w[1..]);
      CombStep(p, q, u[0], v[0], w[0], Dot(u[1..], w[1..]), Dot(v[1..], w[1..]));
    }
  }

  lemma {:induction false} DotZeros(v: seq<real>)
    ensures Dot(Zeros(|v|), v) == 0.0
  {
    if |v| > 0 {
      assert Zeros(|v|)[1..] == Zeros(|v| - 1);
      DotZeros(v[1..]);
    }
  }

  /** Dotting with the all-ones vector is summing. */
  lemma {:induction false} DotOnes(v: seq<real>)
    ensures Dot(Ones(|v|), v) == Sum(v)
  {
    if |v| > 0 {
      assert Ones(|v|)[1..] == Ones(|v| - 1);
      DotOnes(v[1..]);
    }
  }

  /** `n` equals the sum of `n` ones: the `x.size` entry of a Gram matrix with a constant column. */
  lemma {:induction false} SumOnes(n: nat)
    ensures Sum(Ones(n)) == n as real
  {
    if n > 0 {
      assert Ones(n)[1..] == Ones(n - 1);
      SumOnes(n - 1);
    }
  }

  /** The squared length of `d1*u + d2*v` is the Gram matrix's quadratic form at (d1, d2). */
  lemma {:induction false} CombSumSq(u: seq<real>, v: seq<real>, d1: real, d2: real)
    requires |u| == |v|
    ensures SumSq(Comb(d1, u, d2, v)) == QuadForm(SumSq(u), Dot(u, v), SumSq(v), d1, d2)
  {
    if |u| > 0 {
      var c, t := Comb(d1, u, d2, v), Comb(d1, u[1..], d2, v[1..]);
      CombTail(d1, u, d2, v);
      CombSumSq(u[1..], v[1..], d1, d2);
      var h := d1 * u[0] + d2 * v[0];
      HeadStep(c, t, h);
      HeadTerms(u, v);
      QuadFormHead(SumSq(u), Dot(u, v), SumSq(v), u[0], v[0], SumSq(u[1..]), Dot(u[1..], v[1..]), SumSq(v[1..]), d1, d2, h);
      Chain(SumSq(c), h * h, SumSq(t), QuadForm(SumSq(u[1..]), Dot(u[1..], v[1..]), SumSq(v[1..]), d1, d2),
            QuadForm(SumSq(u), Dot(u, v), SumSq(v), d1, d2));
    }
  }

  /** Joins three equations whose terms are kept whole, so that no product is expanded. */
  lemma {:induction false} Chain(s: real, hh: real, st: real, qt: real, qf: real)
    requires s == hh + st
    requires st == qt
    requires hh + qt == qf
    ensures s == qf
  {
  }

  /** The quadratic form of a Gram matrix split into its first sample and the rest. */
  lemma {:induction false} QuadFormHead(s: real, d: real, t: real, a: real, c: real, s1: real, d1: real, t1: real,
                                        p: real, q: real, h: real)
    requires s == a * a + s1 && d == a * c + d1 && t == c * c + t1 && h == p * a + q * c
    ensures h * h + QuadForm(s1, d1, t1, p, q) == QuadForm(s, d, t, p, q)
  {
    QuadStep(p, q, a, c, s1, d1, t1, h);
    QuadFormCongruent(s, d, t, a * a + s1, a * c + d1, c * c + t1, p, q);
  }

  lemma {:induction false} QuadFormCongruent(a1: real, b1: real, c1: real, a2: real, b2: real, c2: real, p: real, q: real)
    requires a1 == a2 && b1 == b2 && c1 == c2
    ensures QuadForm(a1, b1, c1, p, q) == QuadForm(a2, b2, c2, p, q)
  {
  }

  /** The first terms of the sums behind a Gram matrix. */
  lemma {:induction false} HeadTerms(u: seq<real>, v: seq<real>)
    requires |u| == |v| > 0
    ensures SumSq(u) == u[0] * u[0] + SumSq(u[1..])
    ensures Dot(u, v) == u[0] * v[0] + Dot(u[1..], v[1..])
    ensures SumSq(v) == v[0] * v[0] + SumSq(v[1..])
  {
  }

  lemma {:induction false} HeadStep(c: seq<real>, t: seq<real>, h: real)
    requires |c| > 0 && c[0] == h && c[1..] == t
    ensures SumSq(c) == h * h + SumSq(t)
  {
  }

  /** The sum of squared residuals of a two-column model, as a quadratic in its coefficients. */
  lemma {:induction false} ResidualSumSq(b: seq<real>, u: seq<real>, v: seq<real>, p: real, q: real)
    requires |u| == |v| == |b|
    ensures SumSq(Residual(b, u, v, p, q))
         == SumSq(b) - 2.0 * (p * Dot(u, b) + q * Dot(v, b)) + QuadForm(SumSq(u), Dot(u, v), SumSq(v), p, q)
  {
    var c := Comb(p, u, q, v);
    assert Residual(b, u, v, p, q) == Comb(1.0, b, -1.0, c);
    calc {
      SumSq(Residual(b, u, v, p, q));
    == { CombSumSq(b, c, 1.0, -1.0); }
      QuadForm(SumSq(b), Dot(b, c), SumSq(c), 1.0, -1.0);
    == { UnitQuadForm(SumSq(b), Dot(b, c), SumSq(c)); }
      SumSq(b) - 2.0 * Dot(b, c) + SumSq(c);
    == { DotSym(b, c); DotComb(p, u, q, v, b); CombSumSq(u, v, p, q); }
      SumSq(b) - 2.0 * (p * Dot(u, b) + q * Dot(v, b)) + QuadForm(SumSq(u), Dot(u, v), SumSq(v), p, q);
    }
  }

  /** A Gram matrix is positive semidefinite. */
  lemma {:induction false} GramPsd(u: seq<real>, v: seq<real>, d1: real, d2: real)
    requires |u| == |v|
    ensures QuadForm(SumSq(u), Dot(u, v), SumSq(v), d1, d2) >= 0.0
  {
    CombSumSq(u, v, d1, d2);
    DotSelfNonneg(Comb(d1, u, d2, v));
  }

  lemma {:induction false} PsdDetPositiveCase(uu: real, uv: real, vv: real)
    requires uu > 0.0 && QuadForm(uu, uv, vv, uv, -uu) >= 0.0
    ensures uv * uv <= uu * vv
  {
    assert QuadForm(uu, uv, vv, uv, -uu) == uu * (uu * vv - uv * uv);
    PositiveFactor(uu, uu * vv - uv * uv);
  }

  lemma {:induction false} PsdDetZeroCase(uv: real, vv: real)
    requires uv != 0.0
    ensures QuadForm(0.0, uv, vv, (vv + 1.0) / (2.0 * uv), -1.0) == -1.0
  {
    var t := (vv + 1.0) / (2.0 * uv);
    assert 2.0 * t * uv == vv + 1.0;
  }

  /** Cauchy-Schwarz: the determinant of a 2x2 Gram matrix is never negative. */
  lemma {:induction false} CauchySchwarz(u: seq<real>, v: seq<real>)
    requires |u| == |v|
    ensures Dot(u, v) * Dot(u, v) <= SumSq(u) * SumSq(v)
  {
    var uu, uv, vv := SumSq(u), Dot(u, v), SumSq(v);
    DotSelfNonneg(u);
    if uu > 0.0 {
      GramPsd(u, v, uv, -uu);
      PsdDetPositiveCase(uu, uv, vv);
    } else if uv != 0.0 {
      GramPsd(u, v, (vv + 1.0) / (2.0 * uv), -1.0);
      PsdDetZeroCase(uv, vv);
      assert false;
    }
  }

  /** A vector whose sum of squares is zero is orthogonal to every vector. */
  lemma {:induction false} NullOrthogonal(w: seq<real>, b: seq<real>)
    requires |w| == |b| && SumSq(w) == 0.0
    ensures Dot(w, b) == 0.0
  {
    CauchySchwarz(w, b);
    SquareZero(Dot(w, b));
  }
}
