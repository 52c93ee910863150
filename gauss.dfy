/**
 * The Gaussian fit by the integral-equation method: the data are matched
 * against `y - y[0] = A S + B T`, where S and T are the cumulative trapezoid
 * integrals of y and of x*y; the mean and deviation come from (A, B), and the
 * amplitude from a projection onto the fitted bell curve.
 */
module Gauss {
  import opened Wrappers
  import opened Vectors
  import opened Linear2
  import opened Numerics
  import opened Trapezoid

  /** The fitted `[amp, mu, sigma]`, in the order of the returned array. */
  datatype GaussParams = GaussParams(amp: real, mu: real, sigma: real)

  /** `x * y`, elementwise. */
  function Products(x: seq<real>, y: seq<real>): (r: seq<real>)
    requires |x| == |y|
    ensures |r| == |x|
    ensures forall i :: 0 <= i < |x| ==> r[i] == x[i] * y[i]
  {
    seq(|x|, i requires 0 <= i < |x| => x[i] * y[i])
  }

  /**
   * `a1`: allocated empty, row 0 set to zero, then column 0 filled with the
   * running integral of y and column 1 with the running integral of x*y.
   */
  method DesignMatrix(x: seq<real>, y: seq<real>) returns (a1: array2<real>)
    requires |x| == |y| > 0
    ensures fresh(a1) && a1.Length0 == |x| && a1.Length1 == 2
    ensures forall i :: 0 <= i < |x| ==> a1[i, 0] == CumTrapz(x, y)[i]
    ensures forall i :: 0 <= i < |x| ==> a1[i, 1] == CumTrapz(x, Products(x, y))[i]
  {
    var xy := Products(x, y);
    a1 := new real[|x|, 2];
    a1[0, 0], a1[0, 1] := 0.0, 0.0;
    var i := 1;
    while i < |x|
      invariant 1 <= i <= |x|
      invariant forall k :: 0 <= k < i ==> a1[k, 0] == CumTrapz(x, y)[k]
      invariant forall k :: 0 <= k < i ==> a1[k, 1] == CumTrapz(x, xy)[k]
    {
      CumTrapzStep(x, y, i);
      CumTrapzStep(x, xy, i);
      a1[i, 0] := a1[i - 1, 0] + Panel(x, y, i - 1);
      a1[i, 1] := a1[i - 1, 1] + Panel(x, xy, i - 1);
      i := i + 1;
    }
  }

  /** The least-squares coefficients (A, B) of `y - y[0]` on the columns S and T. */
  function Coefficients(x: seq<real>, y: seq<real>): (ab: Vec2)
    requires |x| == |y| > 0
    ensures NormalEquations(CumTrapz(x, y), CumTrapz(x, Products(x, y)), Shifted(y), ab)
  {
    Lstsq(CumTrapz(x, y), CumTrapz(x, Products(x, y)), Shifted(y))
  }

  /**
   * `mu, sigma = -A / B, sqrt(-1.0 / B)`. With B >= 0 the square root is of a
   * non-positive number (or B is zero) and numpy yields NaN.
   */
  function MeanDeviation(a: real, b: real, sqrt: real -> real): (r: Result<(real, real), Failure>)
    requires SqrtLaws(sqrt)
    ensures r.Ok? <==> b < 0.0
    ensures r.Err? ==> r.error == NotANumber
    ensures r.Ok? ==> Recovers(a, b, r.value.0, r.value.1)
  {
    if b >= 0.0 then Err(NotANumber)
    else
      var sigma := sqrt(-1.0 / b);
      NegReciprocalPositive(b);
      PositiveRoot(-1.0 / b, sigma);
      Ok((-a / b, sigma))
  }

  /**
   * (mu, sigma) are the mean and deviation encoded by the coefficients
   * (A, B): B < 0, `mu B = -A`, `sigma > 0` and `sigma^2 = -1 / B`.
   */
  predicate Recovers(a: real, b: real, mu: real, sigma: real)
  {
    b < 0.0 && mu * b == -a && sigma > 0.0 && sigma * sigma == -1.0 / b
  }

  lemma {:induction false} NegReciprocalPositive(b: real)
    requires b < 0.0
    ensures -1.0 / b > 0.0
  {
    var r := -1.0 / b;
    assert r * b == -1.0;
    if r <= 0.0 {
      assert false;
    }
  }

  lemma {:induction false} PositiveRoot(r: real, s: real)
    requires r > 0.0 && s >= 0.0 && s * s == r
    ensures s > 0.0
  {
    if s == 0.0 {
      assert false;
    }
  }

  lemma {:induction false} SquareRootUnique(s: real, t: real)
    requires s >= 0.0 && t >= 0.0 && s * s == t * t
    ensures s == t
  {
    assert (s - t) * (s + t) == 0.0;
    if s + t == 0.0 {
      assert s == 0.0 && t == 0.0;
    } else {
      ZeroProduct(s - t, s + t);
    }
  }

  lemma {:induction false} ZeroProduct(a: real, b: real)
    requires a * b == 0.0 && b != 0.0
    ensures a == 0.0
  {
  }

  lemma {:induction false} ParameterAlgebra(mu: real, sigma: real)
    requires sigma > 0.0
    ensures -(mu / (sigma * sigma)) / (-1.0 / (sigma * sigma)) == mu
    ensures -1.0 / (-1.0 / (sigma * sigma)) == sigma * sigma
  {
    var v := sigma * sigma;
    assert v > 0.0;
  }

  /**
   * The coefficients of the integral equation of a bell curve,
   * A = mu / sigma^2 and B = -1 / sigma^2, give back mu and sigma.
   */
  lemma {:induction false} MeanDeviationRoundTrip(mu: real, sigma: real, sqrt: real -> real)
    requires SqrtLaws(sqrt) && sigma > 0.0
    ensures MeanDeviation(mu / (sigma * sigma), -1.0 / (sigma * sigma), sqrt) == Ok((mu, sigma))
  {
    var v := sigma * sigma;
    assert v > 0.0;
    ParameterAlgebra(mu, sigma);
    var r := MeanDeviation(mu / v, -1.0 / v, sqrt);
    assert r.Ok?;
    assert r.value.1 * r.value.1 == v;
    SquareRootUnique(r.value.1, sigma);
  }

  /** `exp(-0.5 * ((x - mu) / sigma)**2)`: the bell curve of unit height. */
  function Profile(x: real, mu: real, sigma: real, exp: real -> real): real
    requires sigma != 0.0
  {
    exp(-0.5 * (((x - mu) / sigma) * ((x - mu) / sigma)))
  }

  /** `model`: the bell curve of height `a`. */
  function Model(x: real, a: real, mu: real, sigma: real, exp: real -> real): (r: real)
    requires sigma != 0.0
    ensures ExpLaws(exp) ==> (r > 0.0 <==> a > 0.0) && (r < 0.0 <==> a < 0.0)
  {
    SignOfProduct(a, Profile(x, mu, sigma, exp));
    a * Profile(x, mu, sigma, exp)
  }

  /** The curve has height `a` at its mean. */
  lemma {:induction false} ModelAtMean(a: real, mu: real, sigma: real, exp: real -> real)
    requires ExpLaws(exp) && sigma != 0.0
    ensures Model(mu, a, mu, sigma, exp) == a
  {
    assert -0.5 * (((mu - mu) / sigma) * ((mu - mu) / sigma)) == 0.0;
  }

  /** `a2`: the unit bell curve at every sample; every entry is positive. */
  function Profiles(x: seq<real>, mu: real, sigma: real, exp: real -> real): (g: seq<real>)
    requires sigma != 0.0
    requires ExpLaws(exp)
    ensures |g| == |x|
    ensures forall i :: 0 <= i < |x| ==> g[i] == Profile(x[i], mu, sigma, exp) && g[i] > 0.0
  {
    seq(|x|, i requires 0 <= i < |x| => Profile(x[i], mu, sigma, exp))
  }

  /** `y.dot(a2) / a2.dot(a2)`: the multiple of g closest to y. */
  function Amplitude(y: seq<real>, g: seq<real>): (amp: real)
    requires |y| == |g| && SumSq(g) > 0.0
    ensures SumSq(g) * amp == Dot(g, y)
  {
    DotSym(y, g);
    var gg := SumSq(g);
    assert gg * (Dot(y, g) / gg) == Dot(y, g);
    Dot(y, g) / gg
  }

  /** `y - c*g`: what is left of y after taking away c copies of g. */
  function Deviation(y: seq<real>, g: seq<real>, c: real): (r: seq<real>)
    requires |y| == |g|
    ensures |r| == |y|
    ensures forall i :: 0 <= i < |y| ==> r[i] == y[i] - c * g[i]
  {
    seq(|y|, i requires 0 <= i < |y| => y[i] - c * g[i])
  }

  /** The amplitude minimises the sum of squared deviations `sum (y_i - c g_i)^2` over every c. */
  lemma {:induction false} AmplitudeMinimises(y: seq<real>, g: seq<real>, c: real)
    requires |y| == |g| && SumSq(g) > 0.0
    ensures SumSq(Deviation(y, g, Amplitude(y, g))) <= SumSq(Deviation(y, g, c))
  {
    var z, amp := Zeros(|g|), Amplitude(y, g);
    DeviationResidual(y, g, amp);
    DeviationResidual(y, g, c);
    AmplitudeNormalEquations(y, g);
    NormalEquationsMinimise(g, z, y, Vec2(amp, 0.0), c, 0.0);
  }

  /** Subtracting c copies of g is the residual of the two-column model `[g 0]` at (c, 0). */
  lemma {:induction false} DeviationResidual(y: seq<real>, g: seq<real>, c: real)
    requires |y| == |g|
    ensures Deviation(y, g, c) == Residual(y, g, Zeros(|g|), c, 0.0)
  {
    var d, r := Deviation(y, g, c), Residual(y, g, Zeros(|g|), c, 0.0);
    forall i | 0 <= i < |y| ensures d[i] == r[i] {
      assert Zeros(|g|)[i] == 0.0;
    }
  }

  /** The amplitude, with a zero second coefficient, solves the normal equations of `[g 0]`. */
  lemma {:induction false} AmplitudeNormalEquations(y: seq<real>, g: seq<real>)
    requires |y| == |g| && SumSq(g) > 0.0
    ensures NormalEquations(g, Zeros(|g|), y, Vec2(Amplitude(y, g), 0.0))
  {
    var z := Zeros(|g|);
    DotZeros(g);
    DotZeros(y);
    DotZeros(z);
    DotSym(z, g);
  }

  /** Data that are exactly `c` copies of g have amplitude c. */
  lemma {:induction false} AmplitudeExact(g: seq<real>, c: real)
    requires SumSq(g) > 0.0
    ensures Amplitude(Deviation(Zeros(|g|), g, -c), g) == c
  {
    var y := Deviation(Zeros(|g|), g, -c);
    assert y == Comb(c, g, 0.0, g);
    DotComb(c, g, 0.0, g, g);
    MulDiv(c, SumSq(g));
  }

  /**
   * `gauss_fit` on preprocessed samples, as a function: the outcome the
   * method computes.
   */
  function FitSpec(x: seq<real>, y: seq<real>, exp: real -> real, sqrt: real -> real): (r: Result<GaussParams, Failure>)
    requires |x| == |y|
    requires ExpLaws(exp) && SqrtLaws(sqrt)
    ensures r.Ok? ==> |x| > 0 && MeanDeviation(Coefficients(x, y).fst, Coefficients(x, y).snd, sqrt) == Ok((r.value.mu, r.value.sigma))
  {
    if |x| == 0 then Err(IndexError)
    else
      var ab := Coefficients(x, y);
      match MeanDeviation(ab.fst, ab.snd, sqrt)
      case Err(e) => Err(e)
      case Ok((mu, sigma)) =>
        var g := Profiles(x, mu, sigma, exp);
        DotSelfPositive(g, 0);
        Ok(GaussParams(Amplitude(y, g), mu, sigma))
  }

  /** `gauss_fit` from line 105 on: builds `a1` and `b1`, solves, recovers, projects. */
  method Fit(x: seq<real>, y: seq<real>, exp: real -> real, sqrt: real -> real) returns (r: Result<GaussParams, Failure>)
    requires |x| == |y|
    requires ExpLaws(exp) && SqrtLaws(sqrt)
    ensures r == FitSpec(x, y, exp, sqrt)
  {
    if |x| == 0 {
      return Err(IndexError);
    }
    var a1 := DesignMatrix(x, y);
    var s := seq(a1.Length0, i requires 0 <= i < a1.Length0 reads a1 => a1[i, 0]);
    var t := seq(a1.Length0, i requires 0 <= i < a1.Length0 reads a1 => a1[i, 1]);
    assert s == CumTrapz(x, y) && t == CumTrapz(x, Products(x, y));
    var b1 := Shifted(y);
    var ab := Lstsq(s, t, b1);
    var a, b := ab.fst, ab.snd;
    if b >= 0.0 {
      return Err(NotANumber);
    }
    var mu, sigma := -a / b, sqrt(-1.0 / b);
    assert MeanDeviation(a, b, sqrt) == Ok((mu, sigma));
    var a2 := Profiles(x, mu, sigma, exp);
    DotSelfPositive(a2, 0);
    var amp := Dot(y, a2) / Dot(a2, a2);
    r := Ok(GaussParams(amp, mu, sigma));
  }

  /**
   * The fit fails exactly when there are no samples (IndexError) or when the
   * coefficient B is not negative (NaN deviation).
   */
  lemma {:induction false} FitFailure(x: seq<real>, y: seq<real>, exp: real -> real, sqrt: real -> real)
    requires |x| == |y| && ExpLaws(exp) && SqrtLaws(sqrt)
    ensures |x| == 0 ==> FitSpec(x, y, exp, sqrt) == Err(IndexError)
    ensures |x| > 0 ==> (FitSpec(x, y, exp, sqrt).Err? <==> Coefficients(x, y).snd >= 0.0)
    ensures |x| > 0 && FitSpec(x, y, exp, sqrt).Err? ==> FitSpec(x, y, exp, sqrt).error == NotANumber
  {
  }

  /**
   * A successful fit reports the mean and deviation of the coefficients (A, B)
   * that solve the normal equations of `y - y[0] ~ A S + B T`.
   */
  lemma {:induction false} FitRecovers(x: seq<real>, y: seq<real>, exp: real -> real, sqrt: real -> real)
    requires |x| == |y| > 0 && ExpLaws(exp) && SqrtLaws(sqrt)
    requires FitSpec(x, y, exp, sqrt).Ok?
    ensures var p, ab := FitSpec(x, y, exp, sqrt).value, Coefficients(x, y);
      && NormalEquations(CumTrapz(x, y), CumTrapz(x, Products(x, y)), Shifted(y), ab)
      && Recovers(ab.fst, ab.snd, p.mu, p.sigma)
  {
    var p, ab := FitSpec(x, y, exp, sqrt).value, Coefficients(x, y);
    var md := MeanDeviation(ab.fst, ab.snd, sqrt);
    assert md.value == (p.mu, p.sigma);
  }

  /** A successful fit's amplitude is the best height for its bell curve. */
  lemma {:induction false} FitAmplitude(x: seq<real>, y: seq<real>, exp: real -> real, sqrt: real -> real, c: real)
    requires |x| == |y| > 0 && ExpLaws(exp) && SqrtLaws(sqrt)
    requires FitSpec(x, y, exp, sqrt).Ok?
    ensures var p := FitSpec(x, y, exp, sqrt).value;
      var g := Profiles(x, p.mu, p.sigma, exp);
      SumSq(g) > 0.0 && SumSq(Deviation(y, g, p.amp)) <= SumSq(Deviation(y, g, c))
  {
    var p := FitSpec(x, y, exp, sqrt).value;
    var g := Profiles(x, p.mu, p.sigma, exp);
    DotSelfPositive(g, 0);
    AmplitudeMinimises(y, g, c);
  }
}
