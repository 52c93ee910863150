/**
 * The cumulative trapezoid integral that both integral-equation fits start
 * from: entry 0 is zero, and entry i adds the area of the trapezoid between
 * sample points i-1 and i.
 */
module Trapezoid {
  import opened Vectors

  /** The area under the chord from (x[i], y[i]) to (x[i+1], y[i+1]). */
  function Panel(x: seq<real>, y: seq<real>, i: nat): real
    requires |x| == |y| && i + 1 < |x|
  {
    0.5 * (y[i + 1] + y[i]) * (x[i + 1] - x[i])
  }

  /** `0.5 * (y[1:] + y[:-1]) * diff(x)`: one area per gap between samples. */
  function Panels(x: seq<real>, y: seq<real>): (r: seq<real>)
    requires |x| == |y| > 0
    ensures |r| == |x| - 1
    ensures forall i :: 0 <= i < |r| ==> r[i] == Panel(x, y, i)
  {
    seq(|x| - 1, i requires 0 <= i < |x| - 1 => Panel(x, y, i))
  }

  /** `cumsum(v)`: entry k is the sum of the first k + 1 entries. */
  function Cumsum(v: seq<real>): (r: seq<real>)
    ensures |r| == |v|
    ensures forall k :: 0 <= k < |v| ==> r[k] == Sum(v[..k + 1])
  {
    seq(|v|, k requires 0 <= k < |v| => Sum(v[..k + 1]))
  }

  /** The cumulative trapezoid integral of y over x, anchored at zero at x[0]. */
  function CumTrapz(x: seq<real>, y: seq<real>): (s: seq<real>)
    requires |x| == |y| > 0
    ensures |s| == |x| && s[0] == 0.0
  {
    [0.0] + Cumsum(Panels(x, y))
  }

  lemma {:induction false} SumSnoc(v: seq<real>, e: real)
    ensures Sum(v + [e]) == Sum(v) + e
  {
    if |v| > 0 {
      assert (v + [e])[1..] == v[1..] + [e];
      SumSnoc(v[1..], e);
    }
  }

  /** Each entry of a cumulative sum adds one term to the one before. */
  lemma {:induction false} CumsumStep(v: seq<real>, k: nat)
    requires 0 < k < |v|
    ensures Cumsum(v)[k] == Cumsum(v)[k - 1] + v[k]
  {
    assert v[..k + 1] == v[..k] + [v[k]];
    SumSnoc(v[..k], v[k]);
  }

  /** The trapezoid recurrence: `s[i] = s[i-1] + (y[i] + y[i-1]) (x[i] - x[i-1]) / 2`. */
  lemma {:induction false} CumTrapzStep(x: seq<real>, y: seq<real>, i: nat)
    requires |x| == |y| && 0 < i < |x|
    ensures CumTrapz(x, y)[i] == CumTrapz(x, y)[i - 1] + Panel(x, y, i - 1)
  {
    var p := Panels(x, y);
    assert CumTrapz(x, y)[i] == Cumsum(p)[i - 1];
    if i == 1 {
      assert p[..1] == [p[0]];
      assert Sum([p[0]]) == p[0] + Sum([]);
    } else {
      assert CumTrapz(x, y)[i - 1] == Cumsum(p)[i - 2];
      CumsumStep(p, i - 1);
    }
  }

  lemma {:induction false} AffinePanel(p: real, q: real, x0: real, x1: real)
    ensures 0.5 * ((p * x1 + q) + (p * x0 + q)) * (x1 - x0)
         == 0.5 * p * (x1 * x1 - x0 * x0) + q * (x1 - x0)
  {
  }

  /**
   * The trapezoid rule integrates a straight line exactly: for y = p x + q
   * the cumulative integral is `p (x_i^2 - x_0^2) / 2 + q (x_i - x_0)`.
   */
  lemma {:induction false} CumTrapzAffine(x: seq<real>, y: seq<real>, p: real, q: real, i: nat)
    requires |x| == |y| && i < |x|
    requires forall k :: 0 <= k < |x| ==> y[k] == p * x[k] + q
    ensures CumTrapz(x, y)[i] == 0.5 * p * (x[i] * x[i] - x[0] * x[0]) + q * (x[i] - x[0])
  {
    if i > 0 {
      CumTrapzAffine(x, y, p, q, i - 1);
      CumTrapzStep(x, y, i);
      AffinePanel(p, q, x[i - 1], x[i]);
    }
  }

  /**
   * `s = empty_like(y); s[0] = 0; s[1:] = cumsum(...)`: the integral written
   * into a fresh array one entry at a time.
   */
  method FillCumTrapz(x: seq<real>, y: seq<real>) returns (s: array<real>)
    requires |x| == |y| > 0
    ensures fresh(s) && s[..] == CumTrapz(x, y)
  {
    s := new real[|x|];
    s[0] := 0.0;
    var i := 1;
    while i < |x|
      invariant 1 <= i <= |x|
      invariant s[..i] == CumTrapz(x, y)[..i]
    {
      CumTrapzStep(x, y, i);
      s[i] := s[i - 1] + Panel(x, y, i - 1);
      i := i + 1;
    }
  }
}
