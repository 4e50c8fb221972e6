/** The monthly SARIMA pollutant forecaster: a fixed-order seasonal model,
    five forecast steps scored against the last five observed months, and a
    result row per pollutant in which any failure becomes missing metrics.
    The fitted model is a parameter. */
module SarimaUnivariate {
  import opened Wrappers
  import opened Aggregate
  import opened PySeq
  import opened AirData
  import Calendar

  /** A (p, d, q) order and a (P, D, Q, s) seasonal order. */
  datatype Order = Order(p: nat, d: nat, q: nat)
  datatype SeasonalOrder = SeasonalOrder(p: nat, d: nat, q: nat, s: nat)

  /** Fits a SARIMAX model of the given orders to a series and forecasts the
      given number of steps past its end. */
  type Sarimax = (Order, SeasonalOrder, seq<real>, nat) -> Outcome<seq<real>>

  /** The orders are fixed, never selected from the data. */
  const FixedOrder := Order(1, 1, 1)
  const FixedSeasonal := SeasonalOrder(1, 1, 1, 12)
  const Steps: nat := 5

  /** One row of the results table. */
  datatype ResultRow = ResultRow(pollutant: string, metrics: AirMetrics)

  /** A forecaster that returns as many values as steps asked for, as
      `get_forecast(steps=...)` does. */
  ghost predicate FullForecast(fit: Sarimax) {
    forall o, so, s, k :: fit(o, so, s, k).Ok? ==> |fit(o, so, s, k).value| == k
  }

  /** `run_sarima`: forecast `Steps` months, compare the first
      `len(y_true)` of them with the last (up to) five observed months, and
      turn any error into a row of missing metrics. */
  function RunSarima(df: seq<Point>, pollutant: string, fit: Sarimax,
                     sqrt: real -> real, round: (real, int) -> real): (r: ResultRow)
    ensures r.pollutant == pollutant
    ensures r.metrics.rmse.Some? <==> r.metrics.mae.Some?
    ensures r.metrics.rmse.Some? <==> r.metrics.mape.Some?
  {
    var series := Values(df);
    match fit(FixedOrder, FixedSeasonal, series, Steps)
    case Err(_) => ResultRow(pollutant, NoMetrics)
    case Ok(pred) =>
      var yTrue := From(series, -5);
      var yPred := Upto(pred, |yTrue|);
      match Rounded(yTrue, yPred, sqrt, round)
      case Err(_) => ResultRow(pollutant, NoMetrics)
      case Ok(m) => ResultRow(pollutant, m)
  }

  /** The compared arrays: the last min(5, n) observed values and the first
      as many forecast steps; with a forecaster that returns all its steps
      the two have the same length, at most 5. The forecast lies after the
      series, so the comparison is between future steps and past months. */
  lemma SarimaAlignment(df: seq<Point>, fit: Sarimax)
    requires FullForecast(fit)
    ensures var series := Values(df);
      var yTrue := From(series, -5);
      |yTrue| == Min(5, |df|) && yTrue == series[|df| - |yTrue|..] &&
      (fit(FixedOrder, FixedSeasonal, series, Steps).Ok? ==>
        |Upto(fit(FixedOrder, FixedSeasonal, series, Steps).value, |yTrue|)| == |yTrue| <= 5)
  {
    var series := Values(df);
    NegativeFromIsTail(series, 5);
  }

  /** With a forecaster that returns all its steps, a non-empty series whose
      fit succeeds always gets all three metrics; a failed fit gets none. */
  lemma RunSarimaMetrics(df: seq<Point>, pollutant: string, fit: Sarimax,
                         sqrt: real -> real, round: (real, int) -> real)
    requires FullForecast(fit)
    ensures RunSarima(df, pollutant, fit, sqrt, round).metrics.rmse.Some? <==>
      |df| > 0 && fit(FixedOrder, FixedSeasonal, Values(df), Steps).Ok?
  {
    SarimaAlignment(df, fit);
  }

  /** The result row of one pollutant; an unreadable file or unparsable
      dates give the row of missing metrics. */
  function PollutantRow(pollutant: string, file: Option<seq<Reading>>, parse: string -> Option<Calendar.Day>,
                        fit: Sarimax, sqrt: real -> real, round: (real, int) -> real): (r: ResultRow)
    ensures r.pollutant == pollutant
    ensures file.None? ==> r.metrics == NoMetrics
  {
    match file
    case None => ResultRow(pollutant, NoMetrics)
    case Some(rows) =>
      match Monthly(rows, parse)
      case Err(_) => ResultRow(pollutant, NoMetrics)
      case Ok(df) => RunSarima(df, pollutant, fit, sqrt, round)
  }

  /** The result rows of a list of `(pollutant, file)` pairs, one per pair in order. */
  function Rows(pollutants: seq<(string, string)>, files: string -> Option<seq<Reading>>,
                parse: string -> Option<Calendar.Day>, fit: Sarimax,
                sqrt: real -> real, round: (real, int) -> real): (rs: seq<ResultRow>)
    ensures |rs| == |pollutants|
  {
    if pollutants == [] then []
    else
      var n := |pollutants| - 1;
      Rows(pollutants[..n], files, parse, fit, sqrt, round) +
      [PollutantRow(pollutants[n].0, files(pollutants[n].1), parse, fit, sqrt, round)]
  }

  /** Row `i` of the table is the row of the `i`-th pollutant alone. */
  lemma {:induction false} RowsAt(pollutants: seq<(string, string)>, files: string -> Option<seq<Reading>>,
                                  parse: string -> Option<Calendar.Day>, fit: Sarimax,
                                  sqrt: real -> real, round: (real, int) -> real, i: int)
    requires 0 <= i < |pollutants|
    ensures Rows(pollutants, files, parse, fit, sqrt, round)[i] ==
      PollutantRow(pollutants[i].0, files(pollutants[i].1), parse, fit, sqrt, round)
    decreases |pollutants|
  {
    var n := |pollutants| - 1;
    var prefix := Rows(pollutants[..n], files, parse, fit, sqrt, round);
    assert Rows(pollutants, files, parse, fit, sqrt, round) ==
      prefix + [PollutantRow(pollutants[n].0, files(pollutants[n].1), parse, fit, sqrt, round)];
    if i < n {
      RowsAt(pollutants[..n], files, parse, fit, sqrt, round, i);
      assert pollutants[..n][i] == pollutants[i];
    }
  }

  /** `run_sarima_forecast`: one row per pollutant, in order, including
      pollutants whose file fails to load; the table is returned only when
      `return_metrics` is set. */
  method RunSarimaForecast(pollutants: seq<(string, string)>, files: string -> Option<seq<Reading>>,
                           parse: string -> Option<Calendar.Day>, fit: Sarimax,
                           sqrt: real -> real, round: (real, int) -> real, returnMetrics: bool)
    returns (r: Option<seq<ResultRow>>)
    ensures r.Some? <==> returnMetrics
    ensures r.Some? ==> r.value == Rows(pollutants, files, parse, fit, sqrt, round)
  {
    var results: seq<ResultRow> := [];
    for i := 0 to |pollutants|
      invariant results == Rows(pollutants[..i], files, parse, fit, sqrt, round)
    {
      var row := PollutantRow(pollutants[i].0, files(pollutants[i].1), parse, fit, sqrt, round);
      assert pollutants[..i + 1][..i] == pollutants[..i];
      results := results + [row];
    }
    assert pollutants[..|pollutants|] == pollutants;
    if returnMetrics {
      r := Some(results);
    } else {
      r := None;
    }
  }
}
