/** The monthly XGBoost pollutant forecaster: lagged windows over the monthly
    series, a chronological split that holds out the last months, and one
    metric record per pollutant, with every failure turned into a record of
    missing metrics. The regressor itself is a parameter. */
module XgboostUnivariate {
  import opened Wrappers
  import opened Aggregate
  import opened PySeq
  import opened AirData
  import Calendar

  /** Fits on (train windows, train targets) and predicts the test windows. */
  type Regressor = (seq<seq<real>>, seq<real>, seq<seq<real>>) -> Outcome<seq<real>>

  const NLags: nat := 12
  const NForecast: nat := 5

  /** The number of samples `create_features` makes from n values. */
  function SampleCount(n: nat, k: nat): nat {
    if n >= k then n - k else 0
  }

  /** The windows of `create_features`: sample j holds the k values before
      position j + k, oldest first. */
  function Windows(series: seq<real>, k: nat): (xs: seq<seq<real>>)
    ensures |xs| == SampleCount(|series|, k)
    ensures forall j :: 0 <= j < |xs| ==> xs[j] == series[j..j + k]
  {
    seq(SampleCount(|series|, k), j requires 0 <= j < SampleCount(|series|, k) => series[j..j + k])
  }

  /** The targets of `create_features`: sample j predicts position j + k. */
  function Targets(series: seq<real>, k: nat): (ys: seq<real>)
    ensures |ys| == SampleCount(|series|, k)
    ensures forall j :: 0 <= j < |ys| ==> ys[j] == series[j + k]
  {
    seq(SampleCount(|series|, k), j requires 0 <= j < SampleCount(|series|, k) => series[j + k])
  }

  /** `create_features`: one sample for every position i from k on, its
      window the k values before i and its target the value at i. */
  method CreateFeatures(series: seq<real>, k: nat) returns (xs: seq<seq<real>>, ys: seq<real>)
    ensures |xs| == |ys| == SampleCount(|series|, k)
    ensures forall j :: 0 <= j < |xs| ==> xs[j] == series[j..j + k] && ys[j] == series[j + k]
  {
    xs, ys := [], [];
    var i := k;
    while i < |series|
      invariant k <= i <= if |series| >= k then |series| else k
      invariant |xs| == |ys| == i - k
      invariant forall j :: 0 <= j < |xs| ==> xs[j] == series[j..j + k] && ys[j] == series[j + k]
    {
      xs := xs + [series[i - k..i]];
      ys := ys + [series[i]];
      i := i + 1;
    }
  }

  /** Each sample's window is the next sample's window without its oldest
      value, and with the sample's own target as the newest value: no window
      ever holds its own target or anything after it. */
  lemma WindowsSlide(series: seq<real>, k: nat, j: nat)
    requires k > 0 && j + 1 < SampleCount(|series|, k)
    ensures Windows(series, k)[j + 1] == Windows(series, k)[j][1..] + [Targets(series, k)[j]]
  {
    assert series[j + 1..j + 1 + k] == series[j..j + k][1..] + [series[j + k]];
  }

  /** The first window followed by all targets is the whole series. */
  lemma {:induction false} WindowsRebuild(series: seq<real>, k: nat)
    requires |series| > k
    ensures Windows(series, k)[0] + Targets(series, k) == series
  {
    var w := Windows(series, k)[0];
    var t := Targets(series, k);
    assert |w + t| == |series|;
    forall i | 0 <= i < |series| ensures (w + t)[i] == series[i] {
      if i >= k {
        assert (w + t)[i] == t[i - k];
      }
    }
  }

  /** `run_xgboost`: windows and targets from the monthly series, fewer
      samples than test months plus one is "Not enough data after feature
      creation.", the last `NForecast` samples are the test set, and every
      error (the regressor's too) becomes `NoMetrics`. */
  function RunXgboost(df: seq<Point>, model: Regressor, sqrt: real -> real, round: (real, int) -> real): (r: AirMetrics)
    ensures r.rmse.Some? <==> r.mae.Some?
    ensures r.rmse.Some? <==> r.mape.Some?
    ensures r.rmse.Some? ==> |df| > NLags + NForecast
  {
    var series := Values(df);
    var xs, ys := Windows(series, NLags), Targets(series, NLags);
    if |xs| <= NForecast then NoMetrics
    else
      var split := |xs| - NForecast;
      match model(xs[..split], ys[..split], xs[split..])
      case Err(_) => NoMetrics
      case Ok(preds) =>
        match Rounded(ys[split..], preds, sqrt, round)
        case Err(_) => NoMetrics
        case Ok(m) => m
  }

  /** The run produces metrics exactly when there are more samples than test
      months and the regressor returns one prediction per test sample. */
  lemma RunXgboostSucceeds(df: seq<Point>, model: Regressor, sqrt: real -> real, round: (real, int) -> real)
    ensures RunXgboost(df, model, sqrt, round).rmse.Some? <==>
      |df| > NLags + NForecast &&
      var series := Values(df);
      var split := |df| - NLags - NForecast;
      var out := model(Windows(series, NLags)[..split], Targets(series, NLags)[..split], Windows(series, NLags)[split..]);
      out.Ok? && |out.value| == NForecast
  {
  }

  /** The split is chronological: the training samples are a prefix, the
      test samples are the last `NForecast`, together they are all samples in
      order, and the test targets are the last `NForecast` monthly values,
      which are the values at the plotted dates `df.index[-n_forecast:]`. */
  lemma SplitIsChronological(df: seq<Point>)
    requires |df| > NLags + NForecast
    ensures var xs := Windows(Values(df), NLags);
      var split := |xs| - NForecast;
      xs[..split] + xs[split..] == xs && |xs[split..]| == NForecast
    ensures var ys := Targets(Values(df), NLags);
      var split := |ys| - NForecast;
      ys[split..] == Values(df[|df| - NForecast..])
  {
  }

  /** A run that produces metrics scores the regressor's predictions for the
      test windows against the last `NForecast` monthly values. */
  lemma RunXgboostScores(df: seq<Point>, model: Regressor, sqrt: real -> real, round: (real, int) -> real)
    requires RunXgboost(df, model, sqrt, round).rmse.Some?
    ensures var series := Values(df);
      var split := |df| - NLags - NForecast;
      var out := model(Windows(series, NLags)[..split], Targets(series, NLags)[..split], Windows(series, NLags)[split..]);
      out.Ok? && Rounded(Values(df[|df| - NForecast..]), out.value, sqrt, round).Ok? &&
      RunXgboost(df, model, sqrt, round) == Rounded(Values(df[|df| - NForecast..]), out.value, sqrt, round).value
  {
    SplitIsChronological(df);
  }

  /** The metric record of one pollutant: a file that cannot be read or
      whose dates do not parse gives `NoMetrics`. */
  function PollutantMetrics(file: Option<seq<Reading>>, parse: string -> Option<Calendar.Day>,
                            model: Regressor, sqrt: real -> real, round: (real, int) -> real): (r: AirMetrics)
    ensures file.None? || Monthly(file.value, parse).Err? ==> r == NoMetrics
    ensures r.rmse.Some? <==> r.mae.Some?
  {
    match file
    case None => NoMetrics
    case Some(rows) =>
      match Monthly(rows, parse)
      case Err(_) => NoMetrics
      case Ok(df) => RunXgboost(df, model, sqrt, round)
  }

  /** The `all_metrics` dict after the loop has seen the given pollutants. */
  function AllMetrics(pollutants: seq<(string, string)>, files: string -> Option<seq<Reading>>,
                      parse: string -> Option<Calendar.Day>, model: Regressor,
                      sqrt: real -> real, round: (real, int) -> real): seq<(string, AirMetrics)>
  {
    if pollutants == [] then []
    else
      var n := |pollutants|;
      Assign(AllMetrics(pollutants[..n - 1], files, parse, model, sqrt, round),
             pollutants[n - 1].0, PollutantMetrics(files(pollutants[n - 1].1), parse, model, sqrt, round))
  }

  /** With distinct pollutant names (they are the keys of a dict), the dict
      has one entry per pollutant, in order, each that pollutant's metrics. */
  lemma {:induction false} AllMetricsEntries(pollutants: seq<(string, string)>, files: string -> Option<seq<Reading>>,
                                             parse: string -> Option<Calendar.Day>, model: Regressor,
                                             sqrt: real -> real, round: (real, int) -> real)
    requires DistinctKeys(pollutants)
    ensures var d := AllMetrics(pollutants, files, parse, model, sqrt, round);
      |d| == |pollutants| &&
      forall i :: 0 <= i < |d| ==>
        d[i] == (pollutants[i].0, PollutantMetrics(files(pollutants[i].1), parse, model, sqrt, round))
  {
    if pollutants != [] {
      var n := |pollutants|;
      var init := pollutants[..n - 1];
      assert DistinctKeys(init);
      AllMetricsEntries(init, files, parse, model, sqrt, round);
      var d0 := AllMetrics(init, files, parse, model, sqrt, round);
      assert forall i :: 0 <= i < |d0| ==> d0[i].0 != pollutants[n - 1].0;
    }
  }

  /** `run_xgboost_forecast`: the dict of per-pollutant metrics, returned
      only when `return_metrics` is set (the function otherwise returns
      None). */
  method RunXgboostForecast(pollutants: seq<(string, string)>, files: string -> Option<seq<Reading>>,
                            parse: string -> Option<Calendar.Day>, model: Regressor,
                            sqrt: real -> real, round: (real, int) -> real, returnMetrics: bool)
    returns (r: Option<seq<(string, AirMetrics)>>)
    ensures r.Some? <==> returnMetrics
    ensures r.Some? ==> r.value == AllMetrics(pollutants, files, parse, model, sqrt, round)
  {
    var all: seq<(string, AirMetrics)> := [];
    var i := 0;
    while i < |pollutants|
      invariant 0 <= i <= |pollutants|
      invariant all == AllMetrics(pollutants[..i], files, parse, model, sqrt, round)
    {
      var (pollutant, filename) := pollutants[i];
      var metrics := PollutantMetrics(files(filename), parse, model, sqrt, round);
      assert pollutants[..i + 1][..i] == pollutants[..i];
      all := Assign(all, pollutant, metrics);
      i := i + 1;
    }
    assert pollutants[..i] == pollutants;
    if returnMetrics {
      r := Some(all);
    } else {
      r := None;
    }
  }
}
