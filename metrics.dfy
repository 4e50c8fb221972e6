/** The error measures the forecasting scripts report, over exact reals:
    scikit-learn's mean squared error, mean absolute error, mean absolute
    percentage error and R², and the hand-written pandas MAPE that divides by
    the actual value with no guard against zero. Square root and rounding are
    parameters of the model. */
module Metrics {
  import opened Wrappers
  import opened Stats
  import opened RealFacts

  /** Sum of squared errors. */
  function SumSq(ys: seq<real>, ps: seq<real>): (s: real)
    requires |ys| == |ps|
    ensures s >= 0.0
  {
    if ys == [] then 0.0
    else
      var e := ys[0] - ps[0];
      SquareNonNeg(e, e * e);
      e * e + SumSq(ys[1..], ps[1..])
  }

  /** Sum of absolute errors. */
  function SumAbs(ys: seq<real>, ps: seq<real>): (s: real)
    requires |ys| == |ps|
    ensures s >= 0.0
  {
    if ys == [] then 0.0 else Abs(ys[0] - ps[0]) + SumAbs(ys[1..], ps[1..])
  }

  /** `mean_squared_error`. */
  function Mse(ys: seq<real>, ps: seq<real>): real
    requires |ys| == |ps| > 0
  {
    SumSq(ys, ps) / |ys| as real
  }

  /** `mean_absolute_error`. */
  function Mae(ys: seq<real>, ps: seq<real>): real
    requires |ys| == |ps| > 0
  {
    SumAbs(ys, ps) / |ys| as real
  }

  /** The mean absolute error is zero exactly when every prediction is exact. */
  lemma {:induction false} SumAbsZero(ys: seq<real>, ps: seq<real>)
    requires |ys| == |ps|
    ensures SumAbs(ys, ps) == 0.0 <==> forall i :: 0 <= i < |ys| ==> ys[i] == ps[i]
  {
    if ys != [] {
      SumAbsZero(ys[1..], ps[1..]);
      assert forall i :: 1 <= i < |ys| ==> ys[1..][i - 1] == ys[i] && ps[1..][i - 1] == ps[i];
    }
  }

  lemma MaeZeroIffExact(ys: seq<real>, ps: seq<real>)
    requires |ys| == |ps| > 0
    ensures Mae(ys, ps) == 0.0 <==> forall i :: 0 <= i < |ys| ==> ys[i] == ps[i]
  {
    SumAbsZero(ys, ps);
  }

  /** The mean squared error is zero exactly when every prediction is exact. */
  lemma MseZeroIffExact(ys: seq<real>, ps: seq<real>)
    requires |ys| == |ps| > 0
    ensures Mse(ys, ps) >= 0.0
    ensures Mse(ys, ps) == 0.0 <==> forall i :: 0 <= i < |ys| ==> ys[i] == ps[i]
  {
    SumSqZero(ys, ps);
    QuotientSign(SumSq(ys, ps), |ys| as real);
  }

  /** sqrt as far as the model needs it: the non-negative root. */
  ghost predicate IsSqrt(sqrt: real -> real) {
    forall x :: x >= 0.0 ==> sqrt(x) >= 0.0 && sqrt(x) * sqrt(x) == x
  }

  /** Root mean squared error: `mean_squared_error(..., squared=False)`, or
      `np.sqrt` of the mean squared error. */
  function Rmse(ys: seq<real>, ps: seq<real>, sqrt: real -> real): real
    requires |ys| == |ps| > 0
  {
    sqrt(Mse(ys, ps))
  }

  /** With a genuine square root, RMSE is non-negative, squares back to MSE
      and is zero exactly for perfect predictions. */
  lemma RmseZeroIffExact(ys: seq<real>, ps: seq<real>, sqrt: real -> real)
    requires |ys| == |ps| > 0 && IsSqrt(sqrt)
    ensures Rmse(ys, ps, sqrt) >= 0.0
    ensures Rmse(ys, ps, sqrt) * Rmse(ys, ps, sqrt) == Mse(ys, ps)
    ensures Rmse(ys, ps, sqrt) == 0.0 <==> forall i :: 0 <= i < |ys| ==> ys[i] == ps[i]
  {
    MseZeroIffExact(ys, ps);
    var r := Rmse(ys, ps, sqrt);
    RootZero(r, Mse(ys, ps));
  }

  /** MAE is non-negative and the same with the arrays swapped. */
  lemma {:induction false} SumAbsSymmetric(ys: seq<real>, ps: seq<real>)
    requires |ys| == |ps|
    ensures SumAbs(ys, ps) == SumAbs(ps, ys)
  {
    if ys != [] {
      SumAbsSymmetric(ys[1..], ps[1..]);
    }
  }

  // ----- percentage errors -----

  function MaxReal(a: real, b: real): real {
    if a >= b then a else b
  }

  /** The floor scikit-learn puts under the MAPE denominator: the machine
      epsilon of float64, `np.finfo(np.float64).eps`. */
  const SkEps: real := 0.0000000000000002220446049250313080847263336181640625

  /** Sum of |y - p| / max(|y|, eps): scikit-learn's clamped relative error. */
  function SumClampedRel(ys: seq<real>, ps: seq<real>, eps: real): real
    requires |ys| == |ps| && eps > 0.0
  {
    if ys == [] then 0.0
    else Abs(ys[0] - ps[0]) / MaxReal(Abs(ys[0]), eps) + SumClampedRel(ys[1..], ps[1..], eps)
  }

  /** `mean_absolute_percentage_error`: a fraction, not yet times 100; the
      denominator is clamped below by scikit-learn's machine epsilon. */
  function SkMape(ys: seq<real>, ps: seq<real>, eps: real): real
    requires |ys| == |ps| > 0 && eps > 0.0
  {
    SumClampedRel(ys, ps, eps) / |ys| as real
  }

  /** A float that a pandas reduction can produce: finite, +inf or NaN. */
  datatype Ext = Fin(v: real) | PosInf | NaN

  /** One term |(y - p) / y| of the hand-written MAPE in float arithmetic:
      x/0 is +inf for x != 0 and 0/0 is NaN. */
  function RelTerm(y: real, p: real): Ext {
    if y != 0.0 then Fin(Abs((y - p) / y))
    else if y - p == 0.0 then NaN
    else PosInf
  }

  function FinSum(ys: seq<real>, ps: seq<real>): real
    requires |ys| == |ps|
  {
    if ys == [] then 0.0
    else (if RelTerm(ys[0], ps[0]).Fin? then RelTerm(ys[0], ps[0]).v else 0.0) + FinSum(ys[1..], ps[1..])
  }

  function FinCount(ys: seq<real>, ps: seq<real>): nat
    requires |ys| == |ps|
  {
    if ys == [] then 0
    else (if RelTerm(ys[0], ps[0]).Fin? then 1 else 0) + FinCount(ys[1..], ps[1..])
  }

  predicate AnyInf(ys: seq<real>, ps: seq<real>)
    requires |ys| == |ps|
  {
    exists i :: 0 <= i < |ys| && RelTerm(ys[i], ps[i]) == PosInf
  }

  /** `Series.mean()` of the terms (NaN skipped; +inf dominates; NaN when
      nothing is left), times 100. */
  function PandasMape(ys: seq<real>, ps: seq<real>): Ext
    requires |ys| == |ps|
  {
    if AnyInf(ys, ps) then PosInf
    else if FinCount(ys, ps) == 0 then NaN
    else Fin(FinSum(ys, ps) / FinCount(ys, ps) as real * 100.0)
  }

  lemma {:induction false} FinNoZero(ys: seq<real>, ps: seq<real>, eps: real)
    requires |ys| == |ps| && eps > 0.0
    requires forall i :: 0 <= i < |ys| ==> Abs(ys[i]) >= eps
    ensures FinCount(ys, ps) == |ys|
    ensures FinSum(ys, ps) == SumClampedRel(ys, ps, eps)
  {
    if ys != [] {
      FinNoZero(ys[1..], ps[1..], eps);
      var y, p := ys[0], ps[0];
      assert Abs(y) >= eps > 0.0;
      AbsQuotient(y - p, y);
    }
  }

  /** Where no actual value is near zero, the hand-written MAPE and
      scikit-learn's agree (up to the factor 100). */
  lemma PandasMapeAgreesWithSklearn(ys: seq<real>, ps: seq<real>, eps: real)
    requires |ys| == |ps| > 0 && eps > 0.0
    requires forall i :: 0 <= i < |ys| ==> Abs(ys[i]) >= eps
    ensures PandasMape(ys, ps) == Fin(SkMape(ys, ps, eps) * 100.0)
  {
    FinNoZero(ys, ps, eps);
    assert !AnyInf(ys, ps);
  }

  /** No guard against zero: one zero actual with a non-zero error makes the
      reported MAPE infinite, whatever the other rows hold. */
  lemma PandasMapeZeroActual(ys: seq<real>, ps: seq<real>, i: int)
    requires |ys| == |ps| && 0 <= i < |ys| && ys[i] == 0.0 && ps[i] != 0.0
    ensures PandasMape(ys, ps) == PosInf
  {
    assert RelTerm(ys[i], ps[i]) == PosInf;
  }

  lemma {:induction false} FinCountZero(ys: seq<real>, ps: seq<real>)
    requires |ys| == |ps|
    requires forall i :: 0 <= i < |ys| ==> ys[i] == 0.0
    ensures FinCount(ys, ps) == 0
  {
    if ys != [] {
      FinCountZero(ys[1..], ps[1..]);
    }
  }

  /** All actuals zero and predicted exactly: every term is 0/0 and the mean
      of nothing is NaN. */
  lemma PandasMapeAllZero(ys: seq<real>, ps: seq<real>)
    requires |ys| == |ps|
    requires forall i :: 0 <= i < |ys| ==> ys[i] == 0.0 && ps[i] == 0.0
    ensures PandasMape(ys, ps) == NaN
  {
    FinCountZero(ys, ps);
  }

  /** `round(x, d)` on an extended float: NaN and inf pass through. */
  function RoundExt(x: Ext, round: (real, int) -> real, d: int): Ext {
    if x.Fin? then Fin(round(x.v, d)) else x
  }

  // ----- R² -----

  function SumReal(ys: seq<real>): real {
    if ys == [] then 0.0 else ys[0] + SumReal(ys[1..])
  }

  /** Total sum of squares around the mean of the actual values. */
  function SumSqAround(ys: seq<real>, m: real): (s: real)
    ensures s >= 0.0
  {
    if ys == [] then 0.0
    else
      var e := ys[0] - m;
      SquareNonNeg(e, e * e);
      e * e + SumSqAround(ys[1..], m)
  }

  /** `r2_score`: NaN (None) for fewer than two samples; 1 - SSres/SStot,
      with a constant actual series scoring 1 when predicted exactly and 0
      otherwise. */
  function R2(ys: seq<real>, ps: seq<real>): (r: Option<real>)
    requires |ys| == |ps|
    ensures r.Some? <==> |ys| >= 2
    ensures r.Some? ==> r.value <= 1.0
    ensures r.Some? ==> (r.value == 1.0 <==> SumSq(ys, ps) == 0.0)
  {
    if |ys| < 2 then None
    else
      var tot := SumSqAround(ys, SumReal(ys) / |ys| as real);
      var res := SumSq(ys, ps);
      if tot == 0.0 then Some(if res == 0.0 then 1.0 else 0.0)
      else
        QuotientSign(res, tot);
        Some(1.0 - res / tot)
  }

  /** R² is 1 exactly for perfect predictions. */
  lemma {:induction false} SumSqZero(ys: seq<real>, ps: seq<real>)
    requires |ys| == |ps|
    ensures SumSq(ys, ps) == 0.0 <==> forall i :: 0 <= i < |ys| ==> ys[i] == ps[i]
  {
    if ys != [] {
      SumSqZero(ys[1..], ps[1..]);
      assert forall i :: 1 <= i < |ys| ==> ys[1..][i - 1] == ys[i] && ps[1..][i - 1] == ps[i];
      var e := ys[0] - ps[0];
      SquarePlusZero(e, e * e, SumSq(ys[1..], ps[1..]));
    }
  }

  // ----- scikit-learn argument checks -----

  /** The scores scikit-learn computes on one (actual, predicted) pair of
      arrays, MAPE as a fraction. */
  datatype Scores = Scores(mse: real, mae: real, mape: real)

  /** The metric helpers reject empty input and arrays of different lengths
      before computing anything. */
  function Score(ys: seq<real>, ps: seq<real>, eps: real): (r: Outcome<Scores>)
    requires eps > 0.0
    ensures r.Ok? <==> |ys| == |ps| > 0
  {
    if |ys| != |ps| then Err("Found input variables with inconsistent numbers of samples")
    else if |ys| == 0 then Err("Found array with 0 sample(s)")
    else Ok(Scores(Mse(ys, ps), Mae(ys, ps), SkMape(ys, ps, eps)))
  }
}
