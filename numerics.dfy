/**
 * What the fits assume of the library routines they call, and the failures
 * they can end in.
 */
module Numerics {

  /** `numpy.exp` on reals: one at zero and positive everywhere. */
  ghost predicate ExpLaws(exp: real -> real)
  {
    exp(0.0) == 1.0 && forall t :: exp(t) > 0.0
  }

  /** `numpy.sqrt` on the non-negative reals: the non-negative square root. */
  ghost predicate SqrtLaws(sqrt: real -> real)
  {
    forall r :: r >= 0.0 ==> sqrt(r) >= 0.0 && sqrt(r) * sqrt(r) == r
  }

  /**
   * How a fit or a helper ends without a result. The first four are the
   * Python exceptions raised; `NotANumber` stands for the NaN entries numpy
   * returns, with only a RuntimeWarning, when a square root of a negative
   * number is taken.
   */
  datatype Failure =
    | IndexError   // indexing element 0 of an empty array
    | ValueError   // mismatched sizes or shapes
    | AxisError    // an axis outside [-ndim, ndim)
    | LinAlgError  // `solve` or `inv` on a singular matrix
    | NotANumber
}
