/**
 * The older copy of the exponential fit: the same two systems, but with its
 * own size check and sort, and with each system solved by multiplying by
 * `inv` of its matrix instead of calling `solve`.
 */
module LegacyExp {
  import opened Wrappers
  import opened Vectors
  import opened Linear2
  import opened Numerics
  import opened Trapezoid
  import opened Util
  import ExpFit

  /** The samples the fit works on: as given, or reordered by ascending x. */
  function Ordered(x: seq<real>, y: seq<real>, sorted: bool): (xy: (seq<real>, seq<real>))
    requires |x| == |y|
    ensures |xy.0| == |xy.1| == |x|
    ensures sorted ==> xy == (x, y)
    ensures !sorted ==> Ascending(xy.0) && multiset(Zip(xy.0, xy.1)) == multiset(Zip(x, y))
  {
    if sorted then (x, y) else SortByX(x, y)
  }

  /** The legacy `exp_fit` as a function: the outcome the method computes. */
  function FitSpec(x: NdArray, y: NdArray, sorted: bool, exp: real -> real): (r: Result<ExpFit.ExpParams, Failure>)
    ensures |x.data| != |y.data| ==> r == Err(ValueError)
    ensures r.Err? ==> r.error == ValueError || r.error == IndexError || r.error == LinAlgError
    ensures r.Ok? ==> |x.data| == |y.data| > 0
  {
    if |x.data| != |y.data| then Err(ValueError)
    else
      var (xs, ys) := Ordered(x.data, y.data, sorted);
      if |xs| == 0 then Err(IndexError)
      else
        var (m1, r1) := ExpFit.FirstSystem(xs, ys, CumTrapz(xs, ys));
        match Inverse(m1)
        case None => Err(LinAlgError)
        case Some(n1) =>
          var c := Apply(n1, r1).snd;
          var (m2, r2) := ExpFit.SecondSystem(ys, ExpFit.Exps(xs, c, exp));
          match Inverse(m2)
          case None => Err(LinAlgError)
          case Some(n2) =>
            var ab := Apply(n2, r2);
            Ok(ExpFit.ExpParams(ab.fst, ab.snd, c))
  }

  /**
   * The legacy `exp_fit`: ravel both inputs, check their sizes, sort unless
   * told they are sorted, then fill `s` and `out` in place.
   */
  method Fit(x: NdArray, y: NdArray, sorted: bool, exp: real -> real) returns (r: Result<array<real>, Failure>)
    ensures r.Err? <==> FitSpec(x, y, sorted, exp).Err?
    ensures r.Err? ==> r.error == FitSpec(x, y, sorted, exp).error
    ensures r.Ok? ==> var p := FitSpec(x, y, sorted, exp).value;
      fresh(r.value) && r.value[..] == [p.a, p.b, p.c]
  {
    var xs, ys := x.data, y.data;
    if |xs| != |ys| {
      return Err(ValueError);
    }
    if !sorted {
      xs, ys := SortByX(xs, ys).0, SortByX(xs, ys).1;
    }
    assert (xs, ys) == Ordered(x.data, y.data, sorted);
    if |xs| == 0 {
      return Err(IndexError);
    }
    var s := FillCumTrapz(xs, ys);
    var (m1, r1) := ExpFit.FirstSystem(xs, ys, s[..]);
    var out := new real[3];
    var n1 := Inverse(m1);
    if n1.None? {
      return Err(LinAlgError);
    }
    out[2] := Apply(n1.value, r1).snd;
    var ex := ExpFit.Exps(xs, out[2], exp);
    var (m2, r2) := ExpFit.SecondSystem(ys, ex);
    var n2 := Inverse(m2);
    if n2.None? {
      return Err(LinAlgError);
    }
    var ab := Apply(n2.value, r2);
    out[0], out[1] := ab.fst, ab.snd;
    r := Ok(out);
  }

  /**
   * Solving through `inv` gives what `solve` gives: for inputs of equal size,
   * the legacy fit is the newer fit applied to the (possibly sorted) samples,
   * failures included.
   */
  lemma {:induction false} AgreesWithSolve(x: NdArray, y: NdArray, sorted: bool, exp: real -> real)
    requires |x.data| == |y.data|
    ensures var (xs, ys) := Ordered(x.data, y.data, sorted);
      FitSpec(x, y, sorted, exp) == ExpFit.FitSpec(xs, ys, exp)
  {
    var (xs, ys) := Ordered(x.data, y.data, sorted);
    if |xs| > 0 {
      var (m1, r1) := ExpFit.FirstSystem(xs, ys, CumTrapz(xs, ys));
      if Det(m1) != 0.0 {
        InverseSolves(m1, r1);
        var c := Apply(Inverse(m1).value, r1).snd;
        var (m2, r2) := ExpFit.SecondSystem(ys, ExpFit.Exps(xs, c, exp));
        if Det(m2) != 0.0 {
          InverseSolves(m2, r2);
        }
      }
    }
  }

  /** Inputs of different sizes raise ValueError; otherwise the checks of the newer fit apply. */
  lemma {:induction false} SizeMismatch(x: NdArray, y: NdArray, sorted: bool, exp: real -> real)
    ensures FitSpec(x, y, sorted, exp).Err? && FitSpec(x, y, sorted, exp).error == ValueError
        <==> |x.data| != |y.data|
  {
    if |x.data| == |y.data| {
      AgreesWithSolve(x, y, sorted, exp);
      var (xs, ys) := Ordered(x.data, y.data, sorted);
      ExpFit.FitFailure(xs, ys, exp);
    }
  }
}
