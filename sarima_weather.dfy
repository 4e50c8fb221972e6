/** backend/weather_data_files/sarima_weather_univariate.py: the daily means
    of the three temperature variables, a fixed-order SARIMA fit per
    variable on its non-missing days, and the in-sample RMSE and MAE of the
    fitted values, collected in a dictionary of four parallel lists. The
    SARIMAX fit itself, sqrt and rounding are parameters. */
module SarimaWeather {
  import opened Wrappers
  import opened Frames
  import opened Columns
  import opened Stats
  import opened Aggregate
  import opened Grouping
  import opened Metrics
  import opened WeatherModels

  /** A (p, d, q) order, a (P, D, Q, s) seasonal order and the two
      constraints SARIMAX may enforce on the fitted coefficients. */
  datatype Order = Order(p: nat, d: nat, q: nat)
  datatype SeasonalOrder = SeasonalOrder(p: nat, d: nat, q: nat, s: nat)
  datatype Config = Config(order: Order, seasonal: SeasonalOrder, enforceStationarity: bool, enforceInvertibility: bool)

  /** The `SARIMAX` call: the orders are fixed and neither constraint is enforced. */
  const Fixed := Config(Order(1, 0, 0), SeasonalOrder(1, 0, 1, 12), false, false)

  /** Fits a SARIMAX model of the given configuration to a series and
      returns its in-sample fitted values (`results.fittedvalues`). */
  type Sarimax = (Config, seq<real>) -> Outcome<seq<real>>

  // ----- daily means -----

  /** The daily step: `groupby("DATE").agg(mean)` of the three targets. The
      aggregation dictionary names every target, so a missing one raises
      KeyError; a text value cannot be averaged. */
  function Daily(t: Table): (r: Outcome<seq<seq<Obs>>>)
    ensures r.Ok? <==> forall j :: 0 <= j < |Targets| ==>
      Targets[j] in t.cols && !TextValue(t, "DATE", DayKey, Targets[j])
    ensures r.Ok? ==> |r.value| == |Targets|
  {
    if exists j :: 0 <= j < |Targets| && Targets[j] !in t.cols then Err("Column(s) not found")
    else if exists j :: 0 <= j < |Targets| && TextValue(t, "DATE", DayKey, Targets[j]) then
      Err("agg function failed [how->mean,dtype->object]")
    else Ok(seq(|Targets|, j requires 0 <= j < |Targets| => GroupedMean(t, "DATE", DayKey, Targets[j]).value))
  }

  /** `daily_weather` has one row per date: each target's column is
      ascending by day, holds every day some row has and no other, and
      holds that day's mean; the three columns share their days. */
  lemma DailyFacts(t: Table, j: nat)
    requires Daily(t).Ok? && j < |Targets|
    ensures var r := Daily(t).value[j];
      Ascending(r) &&
      (forall k :: k in Keys(r) <==> exists i :: 0 <= i < |t.rows| && Get(t, i, "DATE") == Date(k)) &&
      (forall i :: 0 <= i < |r| ==> r[i].val == MeanSkipNa(GroupValues(t.cols, t.rows, "DATE", DayKey, Targets[j], r[i].key))) &&
      Keys(r) == Keys(Daily(t).value[0])
  {
    var ds := Daily(t).value;
    GroupedMeanFacts(t, "DATE", DayKey, Targets[j]);
    GroupedMeanFacts(t, "DATE", DayKey, Targets[0]);
    forall k ensures (exists i :: 0 <= i < |t.rows| && DayKey(Get(t, i, "DATE")) == Some(k)) <==>
      (exists i :: 0 <= i < |t.rows| && Get(t, i, "DATE") == Date(k))
    {
      if exists i :: 0 <= i < |t.rows| && DayKey(Get(t, i, "DATE")) == Some(k) {
        var i :| 0 <= i < |t.rows| && DayKey(Get(t, i, "DATE")) == Some(k);
        assert Get(t, i, "DATE") == Date(k);
      }
    }
    AscendingKeys(ds[j]);
    AscendingKeys(ds[0]);
    IncreasingUnique(Keys(ds[j]), Keys(ds[0]));
  }

  lemma AscendingKeys(xs: seq<Obs>)
    requires Ascending(xs)
    ensures Increasing(Keys(xs))
  {
  }

  // ----- one variable -----

  /** RMSE and MAE of one variable. */
  datatype Scored = Scored(rmse: real, mae: real)

  /** One turn of the loop over the variables: the days whose mean is present, the
      fitted values of the fixed model, and RMSE and MAE of the fitted
      values against those same days' means, each rounded to 4 places.
      scikit-learn rejects fitted values of another length. */
  function ColumnScore(daily: seq<Obs>, fit: Sarimax, sqrt: real -> real, round: (real, int) -> real): (r: Outcome<Scored>)
  {
    var ys := Values(DropNa(daily));
    match fit(Fixed, ys)
    case Err(m) => Err(m)
    case Ok(fitted) =>
      match Score(ys, fitted, SkEps)
      case Err(m) => Err(m)
      case Ok(s) => Ok(Scored(round(sqrt(s.mse), 4), round(s.mae, 4)))
  }

  /** The evaluation is in-sample: it succeeds exactly when the fit does and
      returns one fitted value per present day, and then, with exact
      rounding, MAE is that of the fitted values against the variable's own
      daily means, RMSE squares back to their MSE, and RMSE is zero exactly
      when the fit reproduces every day. */
  lemma ColumnScoreFacts(daily: seq<Obs>, fit: Sarimax, sqrt: real -> real, round: (real, int) -> real)
    ensures var ys := Values(DropNa(daily));
      ColumnScore(daily, fit, sqrt, round).Ok? <==> fit(Fixed, ys).Ok? && |fit(Fixed, ys).value| == |ys| > 0
    ensures var ys := Values(DropNa(daily));
      var r := ColumnScore(daily, fit, sqrt, round);
      r.Ok? && IsSqrt(sqrt) && (forall x, d :: round(x, d) == x) ==>
        var fitted := fit(Fixed, ys).value;
        r.value.mae == Mae(ys, fitted) && r.value.rmse * r.value.rmse == Mse(ys, fitted) &&
        (r.value.rmse == 0.0 <==> forall i :: 0 <= i < |ys| ==> ys[i] == fitted[i])
  {
    var ys := Values(DropNa(daily));
    var r := ColumnScore(daily, fit, sqrt, round);
    if r.Ok? && IsSqrt(sqrt) && (forall x, d :: round(x, d) == x) {
      var fitted := fit(Fixed, ys).value;
      RmseZeroIffExact(ys, fitted, sqrt);
      assert r.value.rmse == Rmse(ys, fitted, sqrt);
    }
  }

  // ----- the dictionary of parallel lists -----

  /** `metrics_dict`: four lists, one entry per variable in each. */
  datatype MetricsDict = MetricsDict(variable: seq<string>, model: seq<string>, rmse: seq<real>, mae: seq<real>)

  predicate Parallel(m: MetricsDict) {
    |m.variable| == |m.model| == |m.rmse| == |m.mae|
  }

  /** The dictionary after the loop has handled the first n variables; a
      failing fit or evaluation ends the script. */
  function Collected(days: seq<seq<Obs>>, n: nat, fit: Sarimax, sqrt: real -> real, round: (real, int) -> real): (r: Outcome<MetricsDict>)
    requires n <= |days| && n <= |Targets|
    ensures r.Ok? ==> Parallel(r.value) && |r.value.variable| == n
  {
    if n == 0 then Ok(MetricsDict([], [], [], []))
    else
      match Collected(days, n - 1, fit, sqrt, round)
      case Err(m) => Err(m)
      case Ok(d) =>
        match ColumnScore(days[n - 1], fit, sqrt, round)
        case Err(m) => Err(m)
        case Ok(s) => Ok(MetricsDict(d.variable + [Targets[n - 1]], d.model + ["SARIMA"], d.rmse + [s.rmse], d.mae + [s.mae]))
  }

  /** The dictionary is complete exactly when every variable's evaluation
      succeeds. */
  lemma {:induction false} CollectedOk(days: seq<seq<Obs>>, n: nat, fit: Sarimax, sqrt: real -> real, round: (real, int) -> real)
    requires n <= |days| && n <= |Targets|
    ensures Collected(days, n, fit, sqrt, round).Ok? <==>
      forall j :: 0 <= j < n ==> ColumnScore(days[j], fit, sqrt, round).Ok?
    decreases n
  {
    if n > 0 {
      CollectedOk(days, n - 1, fit, sqrt, round);
      var prev := Collected(days, n - 1, fit, sqrt, round);
      var s := ColumnScore(days[n - 1], fit, sqrt, round);
      assert Collected(days, n, fit, sqrt, round).Ok? <==> prev.Ok? && s.Ok?;
    }
  }

  /** Entry j of a complete dictionary names the j-th variable, the model
      "SARIMA", and that variable's scores. */
  lemma {:induction false} CollectedEntries(days: seq<seq<Obs>>, n: nat, fit: Sarimax, sqrt: real -> real, round: (real, int) -> real)
    requires n <= |days| && n <= |Targets| && Collected(days, n, fit, sqrt, round).Ok?
    ensures var r := Collected(days, n, fit, sqrt, round).value;
      r.variable == Targets[..n] &&
      forall j :: 0 <= j < n ==>
        (r.model[j] == "SARIMA" && Ok(Scored(r.rmse[j], r.mae[j])) == ColumnScore(days[j], fit, sqrt, round))
    decreases n
  {
    if n > 0 {
      var prev := Collected(days, n - 1, fit, sqrt, round);
      assert prev.Ok?;
      CollectedEntries(days, n - 1, fit, sqrt, round);
      var r := Collected(days, n, fit, sqrt, round).value;
      var s := ColumnScore(days[n - 1], fit, sqrt, round);
      assert r == MetricsDict(prev.value.variable + [Targets[n - 1]], prev.value.model + ["SARIMA"],
                              prev.value.rmse + [s.value.rmse], prev.value.mae + [s.value.mae]);
      assert Targets[..n] == Targets[..n - 1] + [Targets[n - 1]];
    }
  }

  // ----- the script -----

  /** The whole script: read, average per day, evaluate each variable. */
  function SarimaWeather(df: Table, parse: string -> Option<int>, fit: Sarimax,
                         sqrt: real -> real, round: (real, int) -> real): Outcome<MetricsDict>
    requires WellFormed(df)
  {
    match ReadWeather(df, parse)
    case Err(m) => Err(m)
    case Ok(t) =>
      match Daily(t)
      case Err(m) => Err(m)
      case Ok(days) => Collected(days, |Targets|, fit, sqrt, round)
  }

  /** The script produces its table exactly when the file reads, the daily
      means exist and every variable's evaluation succeeds; the table then
      has one entry per variable in each list, naming the variables in
      order with the model "SARIMA" and each variable's own scores. */
  lemma SarimaWeatherFacts(df: Table, parse: string -> Option<int>, fit: Sarimax,
                           sqrt: real -> real, round: (real, int) -> real)
    requires WellFormed(df)
    ensures var r := SarimaWeather(df, parse, fit, sqrt, round);
      r.Ok? <==> (ReadWeather(df, parse).Ok? && Daily(ReadWeather(df, parse).value).Ok? &&
        forall j :: 0 <= j < |Targets| ==> ColumnScore(Daily(ReadWeather(df, parse).value).value[j], fit, sqrt, round).Ok?)
    ensures var r := SarimaWeather(df, parse, fit, sqrt, round);
      r.Ok? ==> (Parallel(r.value) && r.value.variable == Targets &&
        forall j :: 0 <= j < |Targets| ==>
          (r.value.model[j] == "SARIMA" &&
           Ok(Scored(r.value.rmse[j], r.value.mae[j])) == ColumnScore(Daily(ReadWeather(df, parse).value).value[j], fit, sqrt, round)))
  {
    var read := ReadWeather(df, parse);
    if read.Ok? && Daily(read.value).Ok? {
      var days := Daily(read.value).value;
      CollectedOk(days, |Targets|, fit, sqrt, round);
      if Collected(days, |Targets|, fit, sqrt, round).Ok? {
        CollectedEntries(days, |Targets|, fit, sqrt, round);
        assert Targets[..|Targets|] == Targets;
      }
    }
  }

  /** The whole script, with the four lists kept parallel. */
  method RunSarimaWeather(df: Table, parse: string -> Option<int>, fit: Sarimax,
                          sqrt: real -> real, round: (real, int) -> real) returns (r: Outcome<MetricsDict>)
    requires WellFormed(df)
    ensures r == SarimaWeather(df, parse, fit, sqrt, round)
  {
    var read := ReadWeather(df, parse);
    if read.Err? {
      return Err(read.msg);
    }
    var daily := Daily(read.value);
    if daily.Err? {
      return Err(daily.msg);
    }
    r := CollectScores(daily.value, fit, sqrt, round);
  }

  /** The loop over the variables appends one entry to each of
      the four lists per variable. */
  method CollectScores(days: seq<seq<Obs>>, fit: Sarimax, sqrt: real -> real, round: (real, int) -> real)
    returns (r: Outcome<MetricsDict>)
    requires |days| == |Targets|
    ensures r == Collected(days, |Targets|, fit, sqrt, round)
  {
    var variable, model, rmse, mae := [], [], [], [];
    for j := 0 to |Targets|
      invariant Collected(days, j, fit, sqrt, round) == Ok(MetricsDict(variable, model, rmse, mae))
      invariant |variable| == |model| == |rmse| == |mae| == j
    {
      var s := ColumnScore(days[j], fit, sqrt, round);
      if s.Err? {
        r := Err(s.msg);
        CollectedStaysErr(days, j + 1, fit, sqrt, round);
        return;
      }
      variable := variable + [Targets[j]];
      model := model + ["SARIMA"];
      rmse := rmse + [s.value.rmse];
      mae := mae + [s.value.mae];
    }
    r := Ok(MetricsDict(variable, model, rmse, mae));
  }

  /** Once an evaluation fails, the script's outcome is that failure. */
  lemma {:induction false} CollectedStaysErr(days: seq<seq<Obs>>, n: nat, fit: Sarimax, sqrt: real -> real, round: (real, int) -> real)
    requires n <= |days| == |Targets| && Collected(days, n, fit, sqrt, round).Err?
    ensures Collected(days, |Targets|, fit, sqrt, round) == Collected(days, n, fit, sqrt, round)
    decreases |Targets| - n
  {
    if n < |Targets| {
      CollectedStaysErr(days, n + 1, fit, sqrt, round);
    }
  }
}
