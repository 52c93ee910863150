/**
 * The public entry points `gauss_fit(x, y, sorted)` and `exp_fit(x, y,
 * sorted)`: preprocess the samples, then fit.
 *
 * As written, both begin with `x, y = preprocess(x, y, sorted)`. That call
 * passes `sorted` as `preprocess`'s `axis` parameter, leaves `preprocess`'s
 * own `sorted` at its default of True, and unpacks the three values
 * `preprocess` returns into two names. Every call therefore raises
 * ValueError. The entry points below model the evidently intended call,
 * `preprocess(x, y, sorted=sorted)` keeping the first two values.
 */
module Entry {
  import opened Wrappers
  import opened Numerics
  import opened Util
  import Gauss
  import ExpFit
  import LegacyExp

  /**
   * `x, y = preprocess(x, y, sorted)` as written: `sorted` lands in `axis`
   * (True is 1, False is 0), and a successful call still raises when its
   * three results are unpacked into two names.
   */
  function PreprocessAsWritten(x: NdArray, y: NdArray, sorted: bool): (r: Result<(NdArray, NdArray), Failure>)
    requires x.Valid() && y.Valid()
    ensures r == Err(ValueError)
  {
    match Preprocess(x, y, Some(if sorted then 1 else 0), true)
    case Err(e) => Err(e)
    case Ok(_) => Err(ValueError)
  }

  /**
   * `x, y, _ = preprocess(x, y, sorted=sorted)`: both arrays raveled,
   * ValueError when their sizes differ, and reordered by ascending x
   * unless the caller says they are sorted.
   */
  function PreprocessPair(x: NdArray, y: NdArray, sorted: bool): (r: Result<(NdArray, NdArray), Failure>)
    requires x.Valid() && y.Valid()
    ensures r.Err? <==> |x.data| != |y.data|
    ensures r.Err? ==> r.error == ValueError
    ensures r.Ok? ==> r.value.0.shape == r.value.1.shape == [|x.data|]
    ensures r.Ok? ==> (r.value.0.data, r.value.1.data) == LegacyExp.Ordered(x.data, y.data, sorted)
  {
    match Preprocess(x, y, None, sorted)
    case Err(e) => Err(e)
    case Ok((xs, ys, _)) => Ok((xs, ys))
  }

  /** The corrected call succeeds wherever the sizes agree, for instance on x = y = [0, 1, 2]. */
  lemma {:induction false} PreprocessDiscrepancy()
    ensures var a := NdArray([3], [0.0, 1.0, 2.0]);
      a.Valid() && PreprocessAsWritten(a, a, true).Err? && PreprocessPair(a, a, true) == Ok((a, a))
  {
    var a := NdArray([3], [0.0, 1.0, 2.0]);
    assert Size([3]) == 3 * Size([]);
    assert a.Ravel() == a;
  }

  /** `gauss_fit(x, y, sorted)` with the corrected preprocessing. */
  function GaussFit(x: NdArray, y: NdArray, sorted: bool, exp: real -> real, sqrt: real -> real): (r: Result<Gauss.GaussParams, Failure>)
    requires x.Valid() && y.Valid()
    requires ExpLaws(exp) && SqrtLaws(sqrt)
    ensures (r.Err? && r.error == ValueError) <==> |x.data| != |y.data|
    ensures r.Ok? ==> |x.data| == |y.data| > 0
  {
    match PreprocessPair(x, y, sorted)
    case Err(e) => Err(e)
    case Ok((xs, ys)) =>
      Gauss.FitFailure(xs.data, ys.data, exp, sqrt);
      Gauss.FitSpec(xs.data, ys.data, exp, sqrt)
  }

  /**
   * `gauss_fit` raises ValueError exactly when the sizes differ, and
   * otherwise fits the samples in ascending order of x (or as given when
   * `sorted`).
   */
  lemma {:induction false} GaussFitPreprocessed(x: NdArray, y: NdArray, sorted: bool, exp: real -> real, sqrt: real -> real)
    requires x.Valid() && y.Valid()
    requires ExpLaws(exp) && SqrtLaws(sqrt)
    ensures |x.data| != |y.data| ==> GaussFit(x, y, sorted, exp, sqrt) == Err(ValueError)
    ensures |x.data| == |y.data| ==>
      var (xs, ys) := LegacyExp.Ordered(x.data, y.data, sorted);
      && GaussFit(x, y, sorted, exp, sqrt) == Gauss.FitSpec(xs, ys, exp, sqrt)
      && (!sorted ==> Ascending(xs) && multiset(Zip(xs, ys)) == multiset(Zip(x.data, y.data)))
  {
  }

  /** `exp_fit(x, y, sorted)` of the package with the corrected preprocessing. */
  function ExpFitEntry(x: NdArray, y: NdArray, sorted: bool, exp: real -> real): (r: Result<ExpFit.ExpParams, Failure>)
    requires x.Valid() && y.Valid()
    ensures (r.Err? && r.error == ValueError) <==> |x.data| != |y.data|
    ensures r.Ok? ==> |x.data| == |y.data| > 0
  {
    match PreprocessPair(x, y, sorted)
    case Err(e) => Err(e)
    case Ok((xs, ys)) => ExpFit.FitSpec(xs.data, ys.data, exp)
  }

  /**
   * Once its preprocessing is corrected, the package's `exp_fit` gives the
   * same outcome as the older copy, which ravels, checks and sorts its
   * inputs itself and solves with `inv`.
   */
  lemma {:induction false} ExpFitAgreesWithLegacy(x: NdArray, y: NdArray, sorted: bool, exp: real -> real)
    requires x.Valid() && y.Valid()
    ensures ExpFitEntry(x, y, sorted, exp) == LegacyExp.FitSpec(x, y, sorted, exp)
  {
    if |x.data| == |y.data| {
      LegacyExp.AgreesWithSolve(x, y, sorted, exp);
    }
  }
}
