/** `generate_all_metrics.py`: the metrics of the three univariate air
    forecasters flattened into one summary, one row per (model, variable). */
module GenerateAllMetrics {
  import opened Wrappers
  import opened AirData
  import ProphetUnivariate
  import SarimaUnivariate

  /** One variable's metrics dict: metric name to value (None when the
      forecaster gave up). */
  type Entry = map<string, Option<real>>

  /** A dict of per-variable metrics dicts, in iteration order. */
  type MetricsDict = seq<(string, Entry)>

  /** One row of `summary_df`. */
  datatype SummaryRow = SummaryRow(variable: string, model: string, rmse: Option<real>, mae: Option<real>, mape: Option<real>)

  /** The error of `None.items()`. */
  const NoneItems := "AttributeError: 'NoneType' object has no attribute 'items'"

  /** The row of one dict entry; the dict literal reads RMSE, then MAE, then
      MAPE, and the first that is missing raises KeyError. */
  function Row(item: (string, Entry), model: string): (r: Outcome<SummaryRow>)
    ensures r.Ok? <==> "RMSE" in item.1 && "MAE" in item.1 && "MAPE" in item.1
  {
    var m := item.1;
    if "RMSE" !in m then Err("KeyError: 'RMSE'")
    else if "MAE" !in m then Err("KeyError: 'MAE'")
    else if "MAPE" !in m then Err("KeyError: 'MAPE'")
    else Ok(SummaryRow(item.0, model, m["RMSE"], m["MAE"], m["MAPE"]))
  }

  /** `rows` after the loop of `format_metrics` has seen the given entries;
      the first KeyError escapes. */
  function FormatRows(d: MetricsDict, model: string): Outcome<seq<SummaryRow>> {
    if d == [] then Ok([])
    else
      var n := |d|;
      match FormatRows(d[..n - 1], model)
      case Err(e) => Err(e)
      case Ok(rows) =>
        match Row(d[n - 1], model)
        case Err(e) => Err(e)
        case Ok(row) => Ok(rows + [row])
  }

  /** `format_metrics(metrics_dict, model_name)`, where the dict may be None. */
  function Formatted(d: Option<MetricsDict>, model: string): Outcome<seq<SummaryRow>> {
    match d
    case None => Err(NoneItems)
    case Some(entries) => FormatRows(entries, model)
  }

  lemma {:induction false} FormatRowsStaysErr(d: MetricsDict, model: string, i: nat)
    requires i <= |d| && FormatRows(d[..i], model).Err?
    ensures FormatRows(d, model) == FormatRows(d[..i], model)
    decreases |d| - i
  {
    if i < |d| {
      assert d[..i + 1][..i] == d[..i];
      FormatRowsStaysErr(d, model, i + 1);
    } else {
      assert d[..i] == d;
    }
  }

  /** `format_metrics`: one pass over the dict's items appending a row each. */
  method FormatMetrics(metricsDict: Option<MetricsDict>, modelName: string) returns (r: Outcome<seq<SummaryRow>>)
    ensures r == Formatted(metricsDict, modelName)
  {
    if metricsDict.None? {
      return Err(NoneItems);
    }
    var d := metricsDict.value;
    var rows: seq<SummaryRow> := [];
    for i := 0 to |d|
      invariant FormatRows(d[..i], modelName) == Ok(rows)
    {
      assert d[..i + 1][..i] == d[..i];
      var row := Row(d[i], modelName);
      if row.Err? {
        FormatRowsStaysErr(d, modelName, i + 1);
        return Err(row.msg);
      }
      rows := rows + [row.value];
    }
    assert d[..|d|] == d;
    r := Ok(rows);
  }

  /** Every entry carries the three metrics. */
  predicate Complete(d: MetricsDict) {
    forall i :: 0 <= i < |d| ==> "RMSE" in d[i].1 && "MAE" in d[i].1 && "MAPE" in d[i].1
  }

  /** Formatting succeeds exactly when every entry carries RMSE, MAE and
      MAPE; it then gives one row per entry, in the dict's order, with
      Variable the key, Model the model name and the three metrics copied
      unchanged. */
  lemma {:induction false} FormatRowsEntries(d: MetricsDict, model: string)
    ensures FormatRows(d, model).Ok? <==> Complete(d)
    ensures FormatRows(d, model).Ok? ==> var rows := FormatRows(d, model).value;
      |rows| == |d| &&
      forall i :: 0 <= i < |d| ==>
        rows[i] == SummaryRow(d[i].0, model, d[i].1["RMSE"], d[i].1["MAE"], d[i].1["MAPE"])
  {
    if d != [] {
      var n := |d|;
      var front := d[..n - 1];
      FormatRowsEntries(front, model);
      assert forall i :: 0 <= i < n - 1 ==> front[i] == d[i];
    }
  }

  /** `format_metrics(prophet) + format_metrics(sarima) + format_metrics(xgboost)`,
      evaluated left to right: the first error escapes. */
  function Summary(prophet: Option<MetricsDict>, sarima: Option<MetricsDict>, xgboost: Option<MetricsDict>): Outcome<seq<SummaryRow>> {
    match Formatted(prophet, "Prophet")
    case Err(e) => Err(e)
    case Ok(p) =>
      match Formatted(sarima, "SARIMA")
      case Err(e) => Err(e)
      case Ok(s) =>
        match Formatted(xgboost, "XGBoost")
        case Err(e) => Err(e)
        case Ok(x) => Ok(p + s + x)
  }

  /** What a `run_*_forecast(return_metrics=...)` call hands back. */
  function Returned<T>(returnMetrics: bool, metrics: T): (r: Option<T>)
    ensures r.Some? <==> returnMetrics
  {
    if returnMetrics then Some(metrics) else None
  }

  /** The script as written: the three forecasters are called without
      `return_metrics=True`, so each returns None. */
  function AsWritten(prophet: MetricsDict, sarima: MetricsDict, xgboost: MetricsDict): Outcome<seq<SummaryRow>> {
    Summary(Returned(false, prophet), Returned(false, sarima), Returned(false, xgboost))
  }

  /** Whatever the forecasters computed, the script as written stops at the
      first `format_metrics` call with an AttributeError and writes no
      summary. */
  lemma AsWrittenFails(prophet: MetricsDict, sarima: MetricsDict, xgboost: MetricsDict)
    ensures AsWritten(prophet, sarima, xgboost) == Err(NoneItems)
  {
  }

  /** The evidently intended script: each forecaster's metrics returned and
      passed as a dict of per-variable metric dicts. */
  function Corrected(prophet: MetricsDict, sarima: MetricsDict, xgboost: MetricsDict): Outcome<seq<SummaryRow>> {
    Summary(Returned(true, prophet), Returned(true, sarima), Returned(true, xgboost))
  }

  /** The corrected summary succeeds when every entry carries its three
      metrics, and is then the Prophet rows, then the SARIMA rows, then the
      XGBoost rows, each labelled with its model, one per dict entry, with
      the entry's metrics copied unchanged. */
  lemma CorrectedRows(prophet: MetricsDict, sarima: MetricsDict, xgboost: MetricsDict)
    ensures Corrected(prophet, sarima, xgboost).Ok? <==> Complete(prophet) && Complete(sarima) && Complete(xgboost)
    ensures Corrected(prophet, sarima, xgboost).Ok? ==>
      var rows := Corrected(prophet, sarima, xgboost).value;
      var np := |prophet|;
      var ns := |sarima|;
      |rows| == np + ns + |xgboost| &&
      (forall i :: 0 <= i < np ==> rows[i] == EntryRow(prophet[i], "Prophet")) &&
      (forall i :: np <= i < np + ns ==> rows[i] == EntryRow(sarima[i - np], "SARIMA")) &&
      (forall i :: np + ns <= i < |rows| ==> rows[i] == EntryRow(xgboost[i - np - ns], "XGBoost"))
  {
    FormatRowsEntries(prophet, "Prophet");
    FormatRowsEntries(sarima, "SARIMA");
    FormatRowsEntries(xgboost, "XGBoost");
  }

  /** The row of an entry that carries its three metrics. */
  function EntryRow(item: (string, Entry), model: string): SummaryRow
    requires "RMSE" in item.1 && "MAE" in item.1 && "MAPE" in item.1
  {
    SummaryRow(item.0, model, item.1["RMSE"], item.1["MAE"], item.1["MAPE"])
  }

  // ----- the forecasters' results as metric dicts -----

  function MetricEntry(m: AirMetrics): Entry {
    map["RMSE" := m.rmse, "MAE" := m.mae, "MAPE" := m.mape]
  }

  /** `run_xgboost_forecast` already returns a dict of metric dicts. */
  function FromXgboost(d: seq<(string, AirMetrics)>): (r: MetricsDict)
    ensures |r| == |d| && forall i :: 0 <= i < |d| ==> r[i] == (d[i].0, MetricEntry(d[i].1))
  {
    seq(|d|, i requires 0 <= i < |d| => (d[i].0, MetricEntry(d[i].1)))
  }

  /** The error of `to_dict('index')` over a repeated Pollutant. */
  const DuplicateIndex := "ValueError: DataFrame index must be unique for orient='index'."

  /** `metrics_df.set_index('Pollutant').to_dict('index')` on the SARIMA
      results table: one metrics dict per row keyed by its pollutant, in
      row order; a pollutant named twice makes the conversion raise. */
  function FromSarima(rows: seq<SarimaUnivariate.ResultRow>): (r: Outcome<MetricsDict>)
    ensures r.Ok? <==> forall i, j :: 0 <= i < j < |rows| ==> rows[i].pollutant != rows[j].pollutant
    ensures r.Ok? ==>
      |r.value| == |rows| &&
      forall i :: 0 <= i < |rows| ==> r.value[i] == (rows[i].pollutant, MetricEntry(rows[i].metrics))
  {
    if forall i, j :: 0 <= i < j < |rows| ==> rows[i].pollutant != rows[j].pollutant then
      Ok(seq(|rows|, i requires 0 <= i < |rows| => (rows[i].pollutant, MetricEntry(rows[i].metrics))))
    else
      Err(DuplicateIndex)
  }

  /** The same conversion of the Prophet metrics table. */
  function FromProphet(rows: seq<ProphetUnivariate.MetricsRow>): (r: Outcome<MetricsDict>)
    ensures r.Ok? <==> forall i, j :: 0 <= i < j < |rows| ==> rows[i].pollutant != rows[j].pollutant
    ensures r.Ok? ==>
      |r.value| == |rows| && forall i :: 0 <= i < |rows| ==>
      r.value[i] == (rows[i].pollutant, map["RMSE" := Some(rows[i].rmse), "MAE" := Some(rows[i].mae), "MAPE" := Some(rows[i].mape)])
  {
    if forall i, j :: 0 <= i < j < |rows| ==> rows[i].pollutant != rows[j].pollutant then
      Ok(seq(|rows|, i requires 0 <= i < |rows| =>
        (rows[i].pollutant, map["RMSE" := Some(rows[i].rmse), "MAE" := Some(rows[i].mae), "MAPE" := Some(rows[i].mape)])))
    else
      Err(DuplicateIndex)
  }

  /** The evidently intended script on the forecasters' own results: each
      runner called with `return_metrics=True`, and the Prophet and SARIMA
      tables turned into pollutant-keyed dicts before formatting. */
  function Intended(prophet: seq<ProphetUnivariate.MetricsRow>, sarima: seq<SarimaUnivariate.ResultRow>,
                    xgboost: seq<(string, AirMetrics)>): Outcome<seq<SummaryRow>>
  {
    match FromProphet(prophet)
    case Err(e) => Err(e)
    case Ok(p) =>
      match FromSarima(sarima)
      case Err(e) => Err(e)
      case Ok(s) => Corrected(p, s, FromXgboost(xgboost))
  }

  /** The intended summary fails only on a pollutant repeated within the
      Prophet or the SARIMA table (never, when the pollutants come from one
      dict); it then holds one row per Prophet pollutant, then one per
      SARIMA result, then one per XGBoost entry, each with that model's
      metrics copied unchanged. */
  lemma CorrectedFromModels(prophet: seq<ProphetUnivariate.MetricsRow>, sarima: seq<SarimaUnivariate.ResultRow>,
                            xgboost: seq<(string, AirMetrics)>)
    ensures var r := Intended(prophet, sarima, xgboost);
      r.Ok? <==> (forall i, j :: 0 <= i < j < |prophet| ==> prophet[i].pollutant != prophet[j].pollutant) &&
                 (forall i, j :: 0 <= i < j < |sarima| ==> sarima[i].pollutant != sarima[j].pollutant)
    ensures var r := Intended(prophet, sarima, xgboost);
      r.Ok? ==> ModelRows(r.value, prophet, sarima, xgboost)
  {
    var fp, fs := FromProphet(prophet), FromSarima(sarima);
    if fp.Ok? && fs.Ok? {
      var x := FromXgboost(xgboost);
      ProphetEntries(prophet, fp.value);
      SarimaEntries(sarima, fs.value);
      XgboostEntries(xgboost, x);
      ConvertedRows(prophet, sarima, xgboost, fp.value, fs.value, x);
    }
  }

  /** The summary rows of the three models' results, in order. */
  predicate ModelRows(rows: seq<SummaryRow>, prophet: seq<ProphetUnivariate.MetricsRow>, sarima: seq<SarimaUnivariate.ResultRow>,
                      xgboost: seq<(string, AirMetrics)>)
  {
    var np := |prophet|;
    var ns := |sarima|;
    |rows| == np + ns + |xgboost| &&
    (forall i :: 0 <= i < np ==>
      rows[i] == SummaryRow(prophet[i].pollutant, "Prophet", Some(prophet[i].rmse), Some(prophet[i].mae), Some(prophet[i].mape))) &&
    (forall i :: np <= i < np + ns ==>
      rows[i] == SummaryRow(sarima[i - np].pollutant, "SARIMA", sarima[i - np].metrics.rmse, sarima[i - np].metrics.mae, sarima[i - np].metrics.mape)) &&
    (forall i :: np + ns <= i < |rows| ==>
      rows[i] == SummaryRow(xgboost[i - np - ns].0, "XGBoost", xgboost[i - np - ns].1.rmse, xgboost[i - np - ns].1.mae, xgboost[i - np - ns].1.mape))
  }

  /** Dicts whose entries format to the three models' rows give the summary
      of those rows. */
  lemma ConvertedRows(prophet: seq<ProphetUnivariate.MetricsRow>, sarima: seq<SarimaUnivariate.ResultRow>,
                      xgboost: seq<(string, AirMetrics)>, p: MetricsDict, s: MetricsDict, x: MetricsDict)
    requires Complete(p) && |p| == |prophet|
    requires forall i :: 0 <= i < |p| ==>
      EntryRow(p[i], "Prophet") == SummaryRow(prophet[i].pollutant, "Prophet", Some(prophet[i].rmse), Some(prophet[i].mae), Some(prophet[i].mape))
    requires Complete(s) && |s| == |sarima|
    requires forall i :: 0 <= i < |s| ==>
      EntryRow(s[i], "SARIMA") == SummaryRow(sarima[i].pollutant, "SARIMA", sarima[i].metrics.rmse, sarima[i].metrics.mae, sarima[i].metrics.mape)
    requires Complete(x) && |x| == |xgboost|
    requires forall i :: 0 <= i < |x| ==>
      EntryRow(x[i], "XGBoost") == SummaryRow(xgboost[i].0, "XGBoost", xgboost[i].1.rmse, xgboost[i].1.mae, xgboost[i].1.mape)
    ensures Corrected(p, s, x).Ok?
    ensures ModelRows(Corrected(p, s, x).value, prophet, sarima, xgboost)
  {
    CorrectedRows(p, s, x);
  }

  lemma ProphetEntries(prophet: seq<ProphetUnivariate.MetricsRow>, p: MetricsDict)
    requires FromProphet(prophet) == Ok(p)
    ensures Complete(p) && |p| == |prophet|
    ensures forall i :: 0 <= i < |p| ==>
      EntryRow(p[i], "Prophet") == SummaryRow(prophet[i].pollutant, "Prophet", Some(prophet[i].rmse), Some(prophet[i].mae), Some(prophet[i].mape))
  {
  }

  lemma SarimaEntries(sarima: seq<SarimaUnivariate.ResultRow>, s: MetricsDict)
    requires FromSarima(sarima) == Ok(s)
    ensures Complete(s) && |s| == |sarima|
    ensures forall i :: 0 <= i < |s| ==>
      EntryRow(s[i], "SARIMA") == SummaryRow(sarima[i].pollutant, "SARIMA", sarima[i].metrics.rmse, sarima[i].metrics.mae, sarima[i].metrics.mape)
  {
  }

  lemma XgboostEntries(xgboost: seq<(string, AirMetrics)>, x: MetricsDict)
    requires x == FromXgboost(xgboost)
    ensures Complete(x) && |x| == |xgboost|
    ensures forall i :: 0 <= i < |x| ==>
      EntryRow(x[i], "XGBoost") == SummaryRow(xgboost[i].0, "XGBoost", xgboost[i].1.rmse, xgboost[i].1.mae, xgboost[i].1.mape)
  {
  }

  // ----- the returned tables passed as they are -----

  /** The columns of `pd.DataFrame(rows)` over the runners' metric dicts:
      Pollutant, RMSE, MAE and MAPE, and none when there is no row. */
  function FrameColumns(n: nat): (cols: seq<string>)
    ensures n == 0 <==> cols == []
  {
    if n == 0 then [] else ["Pollutant", "RMSE", "MAE", "MAPE"]
  }

  /** A DataFrame as `format_metrics` iterates it: `.items()` yields one
      (column name, column) pair per column, and a column is indexed by row
      number, so it holds no metric name to look up. */
  function FrameItems(cols: seq<string>): (d: MetricsDict)
    ensures |d| == |cols| && forall i :: 0 <= i < |d| ==> d[i].0 == cols[i] && "RMSE" !in d[i].1
  {
    seq(|cols|, i requires 0 <= i < |cols| => (cols[i], map[]))
  }

  /** Formatting a DataFrame succeeds, with no row, only when it has no
      column; otherwise the first column's `metrics['RMSE']` raises. */
  lemma FrameFormatFails(cols: seq<string>, model: string)
    ensures FormatRows(FrameItems(cols), model) == if cols == [] then Ok([]) else Err("KeyError: 'RMSE'")
  {
    var d := FrameItems(cols);
    if cols != [] {
      assert FormatRows(d[..1], model) == Err("KeyError: 'RMSE'") by {
        assert d[..1][..0] == [];
      }
      FormatRowsStaysErr(d, model, 1);
    }
  }

  /** The script with `return_metrics=True` alone: the Prophet and SARIMA
      tables reach `format_metrics` as DataFrames. */
  function FlagOnly(prophet: seq<ProphetUnivariate.MetricsRow>, sarima: seq<SarimaUnivariate.ResultRow>,
                    xgboost: seq<(string, AirMetrics)>): Outcome<seq<SummaryRow>>
  {
    Summary(Some(FrameItems(FrameColumns(|prophet|))), Some(FrameItems(FrameColumns(|sarima|))), Some(FromXgboost(xgboost)))
  }

  /** Setting `return_metrics=True` is not enough: as soon as Prophet or
      SARIMA reports a pollutant, formatting its table raises KeyError; only
      with both tables empty does the summary hold the XGBoost rows. */
  lemma FlagOnlyFails(prophet: seq<ProphetUnivariate.MetricsRow>, sarima: seq<SarimaUnivariate.ResultRow>,
                      xgboost: seq<(string, AirMetrics)>)
    ensures FlagOnly(prophet, sarima, xgboost).Err? <==> prophet != [] || sarima != []
    ensures prophet != [] || sarima != [] ==> FlagOnly(prophet, sarima, xgboost) == Err("KeyError: 'RMSE'")
  {
    FrameFormatFails(FrameColumns(|prophet|), "Prophet");
    FrameFormatFails(FrameColumns(|sarima|), "SARIMA");
    FormatRowsEntries(FromXgboost(xgboost), "XGBoost");
  }
}
