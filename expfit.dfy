/**
 * The exponential fit `y = a + b exp(c x)` by the integral-equation method:
 * a first 2x2 system on the shifted samples and their running integral gives
 * the exponent c; a second 2x2 system on the columns 1 and exp(c x) gives the
 * bias a and the multiplier b.
 */
module ExpFit {
  import opened Wrappers
  import opened Vectors
  import opened Linear2
  import opened Numerics
  import opened Trapezoid

  /** The fitted `[a, b, c]`: additive bias, multiplier, exponent, in the order of the returned array. */
  datatype ExpParams = ExpParams(a: real, b: real, c: real)

  /** `[[sx2, sxs], [sxs, ss2]]` and `[sxy, sys]`, from `xn = x - x[0]`, `yn = y - y[0]` and the integral s. */
  function FirstSystem(x: seq<real>, y: seq<real>, s: seq<real>): (ms: (Mat2, Vec2))
    requires |x| == |y| == |s| > 0
    ensures ms.0.b == ms.0.c && ms.0.a >= 0.0 && ms.0.d >= 0.0
  {
    var xn, yn := Shifted(x), Shifted(y);
    DotSelfNonneg(xn);
    DotSelfNonneg(s);
    (Mat2(SumSq(xn), Dot(xn, s), Dot(xn, s), SumSq(s)), Vec2(Dot(xn, yn), Dot(yn, s)))
  }

  /** `c * x`, elementwise. */
  function Scale(c: real, x: seq<real>): (r: seq<real>)
    ensures |r| == |x|
    ensures forall i :: 0 <= i < |x| ==> r[i] == c * x[i]
  {
    seq(|x|, i requires 0 <= i < |x| => c * x[i])
  }

  /** `ex = exp(c * x)`. */
  function Exps(x: seq<real>, c: real, exp: real -> real): (ex: seq<real>)
    ensures |ex| == |x|
    ensures forall i :: 0 <= i < |x| ==> ex[i] == exp(c * x[i])
  {
    var cx := Scale(c, x);
    seq(|x|, i requires 0 <= i < |x| => exp(cx[i]))
  }

  /** `[[x.size, se1], [se1, se2]]` and `[sy0, sye]`, from `ex`. */
  function SecondSystem(y: seq<real>, ex: seq<real>): (ms: (Mat2, Vec2))
    requires |y| == |ex|
    ensures ms.0.a == |y| as real && ms.0.b == ms.0.c && ms.0.d >= 0.0
  {
    DotSelfNonneg(ex);
    (Mat2(|y| as real, Sum(ex), Sum(ex), SumSq(ex)), Vec2(Sum(y), Dot(y, ex)))
  }

  /** `exp_fit` on preprocessed samples, as a function: the outcome the method computes. */
  function FitSpec(x: seq<real>, y: seq<real>, exp: real -> real): (r: Result<ExpParams, Failure>)
    requires |x| == |y|
    ensures r.Err? ==> (r.error == IndexError <==> |x| == 0) && (r.error == IndexError || r.error == LinAlgError)
    ensures r.Ok? ==> |x| > 0 && Det(FirstSystem(x, y, CumTrapz(x, y)).0) != 0.0
    ensures r.Ok? ==> var (m2, r2) := SecondSystem(y, Exps(x, r.value.c, exp));
      Apply(m2, Vec2(r.value.a, r.value.b)) == r2
  {
    if |x| == 0 then Err(IndexError)
    else
      var (m1, r1) := FirstSystem(x, y, CumTrapz(x, y));
      match Solve(m1, r1)
      case None => Err(LinAlgError)
      case Some(v) =>
        var c := v.snd;
        var (m2, r2) := SecondSystem(y, Exps(x, c, exp));
        match Solve(m2, r2)
        case None => Err(LinAlgError)
        case Some(w) => Ok(ExpParams(w.fst, w.snd, c))
  }

  /**
   * `exp_fit` from line 73 on: `s` and `out` are filled in place, and each
   * `solve` raises LinAlgError on a singular matrix.
   */
  method Fit(x: seq<real>, y: seq<real>, exp: real -> real) returns (r: Result<array<real>, Failure>)
    requires |x| == |y|
    ensures r.Err? <==> FitSpec(x, y, exp).Err?
    ensures r.Err? ==> r.error == FitSpec(x, y, exp).error
    ensures r.Ok? ==> var p := FitSpec(x, y, exp).value;
      fresh(r.value) && r.value[..] == [p.a, p.b, p.c]
  {
    if |x| == 0 {
      return Err(IndexError);
    }
    var s := FillCumTrapz(x, y);
    var (m1, r1) := FirstSystem(x, y, s[..]);
    var out := new real[3];
    var v := Solve(m1, r1);
    if v.None? {
      return Err(LinAlgError);
    }
    out[2] := v.value.snd;
    var ex := Exps(x, out[2], exp);
    var (m2, r2) := SecondSystem(y, ex);
    var w := Solve(m2, r2);
    if w.None? {
      return Err(LinAlgError);
    }
    out[0], out[1] := w.value.fst, w.value.snd;
    r := Ok(out);
  }

  /** `model`: the curve `a + b exp(c x)`. */
  function Model(x: real, a: real, b: real, c: real, exp: real -> real): (r: real)
    ensures ExpLaws(exp) ==> (r > a <==> b > 0.0) && (r < a <==> b < 0.0)
  {
    SignOfProduct(b, exp(c * x));
    a + b * exp(c * x)
  }

  /** The curve at the i-th sample, written with the i-th entry of `ex`. */
  lemma {:induction false} ModelAt(x: seq<real>, a: real, b: real, c: real, exp: real -> real, i: int)
    requires 0 <= i < |x|
    ensures Model(x[i], a, b, c, exp) == a + b * Exps(x, c, exp)[i]
  {
  }

  /** With a zero exponent the curve is the constant a + b. */
  lemma {:induction false} ModelFlat(x: real, a: real, b: real, exp: real -> real)
    requires ExpLaws(exp)
    ensures Model(x, a, b, 0.0, exp) == a + b
  {
    assert 0.0 * x == 0.0;
  }

  /**
   * The first system is the Gram system of the columns xn and s against the
   * target yn, so its determinant `sx2 ss2 - sxs^2` is never negative.
   */
  lemma {:induction false} FirstSystemGram(x: seq<real>, y: seq<real>, s: seq<real>)
    requires |x| == |y| == |s| > 0
    ensures FirstSystem(x, y, s).0 == Gram(Shifted(x), s)
    ensures FirstSystem(x, y, s).1 == Moments(Shifted(x), s, Shifted(y))
    ensures Det(FirstSystem(x, y, s).0) >= 0.0
  {
    DotSym(Shifted(y), s);
    GramDetNonneg(Shifted(x), s);
  }

  /**
   * The second system is the Gram system of the columns 1 and ex against the
   * target y, so its determinant `n se2 - se1^2` is never negative.
   */
  lemma {:induction false} SecondSystemGram(y: seq<real>, ex: seq<real>)
    requires |y| == |ex|
    ensures SecondSystem(y, ex).0 == Gram(Ones(|y|), ex)
    ensures SecondSystem(y, ex).1 == Moments(Ones(|y|), ex, y)
    ensures Det(SecondSystem(y, ex).0) >= 0.0
  {
    var n := |y|;
    DotOnes(Ones(n));
    SumOnes(n);
    DotOnes(ex);
    DotOnes(y);
    DotSym(y, ex);
    GramDetNonneg(Ones(n), ex);
  }

  /**
   * The fit fails exactly when there are no samples (IndexError) or when one of
   * the two systems is singular (LinAlgError).
   */
  lemma {:induction false} FitFailure(x: seq<real>, y: seq<real>, exp: real -> real)
    requires |x| == |y|
    ensures |x| == 0 ==> FitSpec(x, y, exp) == Err(IndexError)
    ensures |x| > 0 ==>
      var (m1, r1) := FirstSystem(x, y, CumTrapz(x, y));
      (Det(m1) == 0.0 ==> FitSpec(x, y, exp) == Err(LinAlgError))
      && (Det(m1) != 0.0 ==>
            var c := Solve(m1, r1).value.snd;
            (FitSpec(x, y, exp).Err? <==> Det(SecondSystem(y, Exps(x, c, exp)).0) == 0.0))
  {
  }

  /**
   * The exponent of a successful fit is the second component of the one and
   * only solution of the first system.
   */
  lemma {:induction false} FitExponent(x: seq<real>, y: seq<real>, exp: real -> real, v: Vec2)
    requires |x| == |y| > 0 && FitSpec(x, y, exp).Ok?
    requires Apply(FirstSystem(x, y, CumTrapz(x, y)).0, v) == FirstSystem(x, y, CumTrapz(x, y)).1
    ensures FitSpec(x, y, exp).value.c == v.snd
  {
    var (m1, r1) := FirstSystem(x, y, CumTrapz(x, y));
    SolveUnique(m1, r1, v);
  }

  /**
   * The bias and multiplier of a successful fit solve the normal equations of
   * `y ~ a + b exp(c x)`, and so fit y at least as well as any other pair.
   */
  lemma {:induction false} FitBiasMultiplier(x: seq<real>, y: seq<real>, exp: real -> real, a2: real, b2: real)
    requires |x| == |y| > 0 && FitSpec(x, y, exp).Ok?
    ensures var p := FitSpec(x, y, exp).value;
      var ex := Exps(x, p.c, exp);
      && NormalEquations(Ones(|y|), ex, y, Vec2(p.a, p.b))
      && SumSq(Residual(y, Ones(|y|), ex, p.a, p.b)) <= SumSq(Residual(y, Ones(|y|), ex, a2, b2))
  {
    var p := FitSpec(x, y, exp).value;
    var ex := Exps(x, p.c, exp);
    SecondSystemGram(y, ex);
    NormalEquationsMinimise(Ones(|y|), ex, y, Vec2(p.a, p.b), a2, b2);
  }

  /**
   * The second stage is exact: when the data lie on `a0 + b0 exp(c x)` for the
   * exponent c of the first stage, and the second system is nonsingular, the
   * fit returns exactly a0 and b0.
   */
  lemma {:induction false} FitSecondStageExact(x: seq<real>, y: seq<real>, exp: real -> real, a0: real, b0: real)
    requires |x| == |y| > 0
    requires Det(FirstSystem(x, y, CumTrapz(x, y)).0) != 0.0
    requires var (m1, r1) := FirstSystem(x, y, CumTrapz(x, y));
      var c := Solve(m1, r1).value.snd;
      && (forall i :: 0 <= i < |x| ==> y[i] == Model(x[i], a0, b0, c, exp))
      && Det(SecondSystem(y, Exps(x, c, exp)).0) != 0.0
    ensures var (m1, r1) := FirstSystem(x, y, CumTrapz(x, y));
      FitSpec(x, y, exp) == Ok(ExpParams(a0, b0, Solve(m1, r1).value.snd))
  {
    var (m1, r1) := FirstSystem(x, y, CumTrapz(x, y));
    var c := Solve(m1, r1).value.snd;
    var ex := Exps(x, c, exp);
    var u := Ones(|y|);
    forall i | 0 <= i < |y| ensures y[i] == Comb(a0, u, b0, ex)[i] {
      ModelAt(x, a0, b0, c, exp, i);
    }
    assert y == Comb(a0, u, b0, ex);
    SecondSystemGram(y, ex);
    GramSystemExact(u, ex, a0, b0);
    var (m2, r2) := SecondSystem(y, ex);
    SolveUnique(m2, r2, Vec2(a0, b0));
  }
}
