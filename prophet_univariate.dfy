/** The daily Prophet pollutant forecaster: the (ds, y) table of daily
    means, a forecast over the history plus twelve future periods, the last
    five fitted values scored against the last five observations, and a
    loop over pollutants that lets every error escape. The fitted model is a
    parameter. */
module ProphetUnivariate {
  import opened Wrappers
  import opened Aggregate
  import opened PySeq
  import opened Metrics
  import opened AirData
  import Calendar

  /** Fits Prophet to the (ds, y) history and gives `yhat` at every row of
      the future frame (the history dates, then the future periods). */
  type Prophet = seq<Obs> -> Outcome<nat -> real>

  const Periods: nat := 12

  /** One returned metrics dict: Pollutant, RMSE, MAE, MAPE. */
  datatype MetricsRow = MetricsRow(pollutant: string, rmse: real, mae: real, mape: real)

  /** `load_data`: the daily means, with the columns renamed ds and y. */
  function LoadData(rows: seq<Reading>, parse: string -> Option<Calendar.Day>): Outcome<seq<Obs>> {
    Daily(rows, parse)
  }

  /** The `yhat` column of `predict(make_future_dataframe(periods=12))`:
      one value per history date and one per future period. */
  function ForecastColumn(df: seq<Obs>, f: nat -> real): (yhat: seq<real>)
    ensures |yhat| == |df| + Periods
  {
    seq(|df| + Periods, i requires 0 <= i < |df| + Periods => f(i))
  }

  /** The y column, as far as it is present. */
  function Ys(df: seq<Obs>): (ys: seq<Option<real>>)
    ensures |ys| == |df| && forall i :: 0 <= i < |df| ==> ys[i] == df[i].val
  {
    seq(|df|, i requires 0 <= i < |df| => df[i].val)
  }

  /** `iloc[-17:-12]` of the forecast picks the fitted values of exactly the
      positions `tail(5)` takes from the history: max(0, n - 5) .. n - 1,
      whatever the history length n. */
  lemma SliceMatchesTail(df: seq<Obs>, f: nat -> real)
    ensures var yhat := ForecastColumn(df, f);
      var t := Tail(Ys(df), 5);
      |Slice(yhat, -17, -12)| == |t| &&
      Slice(yhat, -17, -12) == yhat[|df| - |t|..|df|]
  {
    var yhat := ForecastColumn(df, f);
    var n := |df|;
    assert Bound(-12, n + Periods) == n;
    assert Bound(-17, n + Periods) == if n >= 5 then n - 5 else 0;
  }

  /** `run_prophet`. Prophet's own check rejects a history with fewer than
      two non-missing y values; scikit-learn rejects a missing value among
      the five compared observations; RMSE is `squared=False`, both errors
      are rounded to 2 and MAPE is scaled by 100 and rounded to 2. Nothing is
      caught. */
  function RunProphet(df: seq<Obs>, pollutant: string, fit: Prophet,
                      sqrt: real -> real, round: (real, int) -> real): (r: Outcome<MetricsRow>)
    ensures r.Ok? ==> r.value.pollutant == pollutant
    ensures r.Ok? ==> CountSome(Ys(df)) >= 2 && fit(df).Ok?
  {
    if CountSome(Ys(df)) < 2 then Err("Dataframe has less than 2 non-NaN rows.")
    else
      match fit(df)
      case Err(m) => Err(m)
      case Ok(f) =>
        var t := Tail(Ys(df), 5);
        if CountSome(t) < |t| then Err("Input contains NaN.")
        else
          var yTrue := Present(t);
          var yPred := Slice(ForecastColumn(df, f), -17, -12);
          match Score(yTrue, yPred, SkEps)
          case Err(m) => Err(m)
          case Ok(s) =>
            Ok(MetricsRow(pollutant, round(sqrt(s.mse), 2), round(s.mae, 2), round(s.mape * 100.0, 2)))
  }

  /** A run is scored exactly when the history has at least two values,
      Prophet fits it, and the last five observations are all present. */
  lemma RunProphetScores(df: seq<Obs>, pollutant: string, fit: Prophet,
                         sqrt: real -> real, round: (real, int) -> real)
    ensures RunProphet(df, pollutant, fit, sqrt, round).Ok? <==>
      CountSome(Ys(df)) >= 2 && fit(df).Ok? &&
      forall i :: 0 <= i < |df| && |df| - 5 <= i ==> df[i].val.Some?
  {
    TailPresent(df);
    var ys := Ys(df);
    if CountSome(ys) >= 2 && fit(df).Ok? {
      var f := fit(df).value;
      var t := Tail(ys, 5);
      SliceMatchesTail(df, f);
      assert |t| >= 2;
      var yTrue := Present(t);
      var yPred := Slice(ForecastColumn(df, f), -17, -12);
      assert CountSome(t) == |t| ==> |yTrue| == |yPred| > 0;
    }
  }

  /** The five compared observations are all present exactly when the last
      five rows of the history hold a value. */
  lemma TailPresent(df: seq<Obs>)
    ensures var t := Tail(Ys(df), 5);
      CountSome(t) == |t| <==> forall i :: 0 <= i < |df| && |df| - 5 <= i ==> df[i].val.Some?
  {
    var t := Tail(Ys(df), 5);
    assert forall i :: 0 <= i < |t| ==> t[i] == df[|df| - |t| + i].val;
    CountAll(t);
  }

  /** Every value of a column is counted exactly when none is missing. */
  lemma {:induction false} CountAll<T>(s: seq<Option<T>>)
    ensures CountSome(s) == |s| <==> forall i :: 0 <= i < |s| ==> s[i].Some?
  {
    if s != [] {
      assert forall i :: 1 <= i < |s| ==> s[1..][i - 1] == s[i];
      CountAll(s[1..]);
    }
  }

  /** The metrics dict of one pollutant, or the error that escapes. */
  function PollutantMetrics(pollutant: string, file: Option<seq<Reading>>, parse: string -> Option<Calendar.Day>,
                            fit: Prophet, sqrt: real -> real, round: (real, int) -> real): (r: Outcome<MetricsRow>)
    ensures r.Ok? ==> r.value.pollutant == pollutant
  {
    match file
    case None => Err("No such file or directory")
    case Some(rows) =>
      match LoadData(rows, parse)
      case Err(m) => Err(m)
      case Ok(df) => RunProphet(df, pollutant, fit, sqrt, round)
  }

  /** The outcome of every pollutant, in order. */
  function Outcomes(pollutants: seq<(string, string)>, files: string -> Option<seq<Reading>>,
                    parse: string -> Option<Calendar.Day>, fit: Prophet,
                    sqrt: real -> real, round: (real, int) -> real): (os: seq<Outcome<MetricsRow>>)
    ensures |os| == |pollutants|
    ensures forall i :: 0 <= i < |os| ==> os[i] == PollutantMetrics(pollutants[i].0, files(pollutants[i].1), parse, fit, sqrt, round)
  {
    seq(|pollutants|, i requires 0 <= i < |pollutants| =>
      PollutantMetrics(pollutants[i].0, files(pollutants[i].1), parse, fit, sqrt, round))
  }

  /** The loop of `run_prophet_forecast` over the per-pollutant outcomes:
      append each dict in turn; the first error escapes the loop and ends
      the run. */
  method AppendUntilError<T>(os: seq<Outcome<T>>) returns (r: Outcome<seq<T>>)
    ensures r.Ok? <==> forall i :: 0 <= i < |os| ==> os[i].Ok?
    ensures r.Ok? ==> |r.value| == |os| && forall i :: 0 <= i < |os| ==> r.value[i] == os[i].value
    ensures r.Err? ==> exists i :: 0 <= i < |os| && os[i] == Err(r.msg) && forall j :: 0 <= j < i ==> os[j].Ok?
  {
    var all: seq<T> := [];
    var i := 0;
    while i < |os|
      invariant 0 <= i <= |os| && |all| == i
      invariant forall j :: 0 <= j < i ==> os[j].Ok? && all[j] == os[j].value
    {
      var metrics := os[i];
      if metrics.Err? {
        return Err(metrics.msg);
      }
      all := all + [metrics.value];
      i := i + 1;
    }
    r := Ok(all);
  }

  /** `run_prophet_forecast`: one metrics dict per pollutant, in order; the
      first pollutant that fails ends the whole run with its error, and the
      table is returned only when `return_metrics` is set (None otherwise). */
  method RunProphetForecast(pollutants: seq<(string, string)>, files: string -> Option<seq<Reading>>,
                            parse: string -> Option<Calendar.Day>, fit: Prophet,
                            sqrt: real -> real, round: (real, int) -> real, returnMetrics: bool)
    returns (r: Outcome<Option<seq<MetricsRow>>>)
    ensures var os := Outcomes(pollutants, files, parse, fit, sqrt, round);
      r.Ok? <==> forall i :: 0 <= i < |os| ==> os[i].Ok?
    ensures r.Ok? ==> (r.value.Some? <==> returnMetrics)
    ensures var os := Outcomes(pollutants, files, parse, fit, sqrt, round);
      r.Ok? && returnMetrics ==> (|r.value.value| == |os| &&
        forall i :: 0 <= i < |os| ==> r.value.value[i] == os[i].value)
  {
    var os := Outcomes(pollutants, files, parse, fit, sqrt, round);
    var all := AppendUntilError(os);
    if all.Err? {
      r := Err(all.msg);
    } else if returnMetrics {
      r := Ok(Some(all.value));
    } else {
      r := Ok(None);
    }
  }
}
