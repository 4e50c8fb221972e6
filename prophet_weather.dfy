/** backend/weather_data_files/prophet_weather_univariate_all.py: per
    temperature variable, the (ds, y) history with missing rows dropped, a
    Prophet forecast over the history dates and 365 days beyond them, the
    in-sample scores on the dates both share, and the new metric rows
    appended to the existing metrics file. The Prophet fit, sqrt and
    rounding are parameters. */
module ProphetWeather {
  import opened Wrappers
  import opened Frames
  import opened Columns
  import opened Aggregate
  import opened Grouping
  import opened Metrics
  import opened WeatherModels

  /** Fits Prophet to a (ds, y) history and gives `yhat` at any date. */
  type ProphetFit = seq<Point> -> Outcome<int -> real>

  /** `make_future_dataframe(periods=365)`: the future frame reaches 365 days past the history. */
  const Periods: nat := 365

  // ----- the forecast frame -----

  /** `make_future_dataframe(periods=365)`: the history's distinct dates in
      ascending order, then the 365 days after the last of them. */
  function FutureDates(history: seq<Point>): (ds: seq<int>)
  {
    var ks := Distinct(PointKeys(history));
    if ks == [] then [] else ks + seq(Periods, i requires 0 <= i < Periods => ks[|ks| - 1] + 1 + i)
  }

  /** The future frame is strictly ascending, holds every history date, and
      ends with 365 days each later than every history date. */
  lemma FutureDatesFacts(history: seq<Point>)
    requires |history| > 0
    ensures var ds := FutureDates(history);
      Increasing(ds) && |ds| >= Periods &&
      (forall p :: p in history ==> p.key in ds) &&
      forall i, p :: |ds| - Periods <= i < |ds| && p in history ==> p.key < ds[i]
  {
    var ks := Distinct(PointKeys(history));
    assert history[0].key == PointKeys(history)[0];
    assert ks != [];
    var last := ks[|ks| - 1];
    var tail := seq(Periods, i requires 0 <= i < Periods => last + 1 + i);
    assert FutureDates(history) == ks + tail;
    forall p | p in history ensures p.key in ks && p.key <= last {
      HistoryKey(history, p);
      LastIsMax(ks, p.key);
    }
    LastIsMax(ks, last);
    AppendIncreasing(ks, tail);
  }

  lemma HistoryKey(history: seq<Point>, p: Point)
    requires p in history
    ensures p.key in Distinct(PointKeys(history))
  {
    var i :| 0 <= i < |history| && history[i] == p;
    assert PointKeys(history)[i] == p.key;
  }

  lemma LastIsMax(ks: seq<int>, k: int)
    requires Increasing(ks) && k in ks
    ensures k <= ks[|ks| - 1]
  {
    var j :| 0 <= j < |ks| && ks[j] == k;
    if j < |ks| - 1 {
      assert ks[j] < ks[|ks| - 1];
    }
  }

  lemma AppendIncreasing(ks: seq<int>, tail: seq<int>)
    requires Increasing(ks) && |ks| > 0
    requires forall i :: 0 <= i < |tail| ==> tail[i] == ks[|ks| - 1] + 1 + i
    ensures Increasing(ks + tail)
  {
    var ds := ks + tail;
    forall i, j | 0 <= i < j < |ds| ensures ds[i] < ds[j] {
      if j >= |ks| && i < |ks| - 1 {
        assert ks[i] < ks[|ks| - 1];
      }
    }
  }

  /** The `yhat` column of `predict(future)`. */
  function Forecast(dates: seq<int>, yhat: int -> real): (fc: seq<Point>)
    ensures |fc| == |dates| && forall i :: 0 <= i < |dates| ==> fc[i] == Point(dates[i], yhat(dates[i]))
  {
    seq(|dates|, i requires 0 <= i < |dates| => Point(dates[i], yhat(dates[i])))
  }

  // ----- the inner merge -----

  /** The forecast values whose date is `d`, in forecast order. */
  function Matches(d: int, fc: seq<Point>): seq<real>
    decreases |fc|
  {
    if fc == [] then [] else (if fc[0].key == d then [fc[0].val] else []) + Matches(d, fc[1..])
  }

  /** `pd.merge(df_temp, forecast[["ds", "yhat"]], on="ds", how="inner")`
      as its (y, yhat) columns: each history row paired with every forecast
      row of its date, history rows in order. */
  function Joined(data: seq<Point>, fc: seq<Point>): seq<(real, real)>
    decreases |data|
  {
    if data == [] then []
    else
      var ms := Matches(data[0].key, fc);
      seq(|ms|, i requires 0 <= i < |ms| => (data[0].val, ms[i])) + Joined(data[1..], fc)
  }

  /** In a strictly ascending frame a date that occurs matches exactly once. */
  lemma {:induction false} MatchesOnce(d: int, fc: seq<Point>)
    requires Increasing(PointKeys(fc)) && d in PointKeys(fc)
    ensures exists i :: 0 <= i < |fc| && fc[i].key == d && Matches(d, fc) == [fc[i].val]
    decreases |fc|
  {
    if fc[0].key == d {
      MatchesNone(d, fc[1..]);
    } else {
      assert PointKeys(fc[1..]) == PointKeys(fc)[1..];
      MatchesOnce(d, fc[1..]);
      var i :| 0 <= i < |fc[1..]| && fc[1..][i].key == d && Matches(d, fc[1..]) == [fc[1..][i].val];
      assert fc[i + 1] == fc[1..][i];
    }
  }

  /** Nothing matches a date below the first of an ascending frame. */
  lemma {:induction false} MatchesNone(d: int, fc: seq<Point>)
    requires forall i :: 0 <= i < |fc| ==> d < fc[i].key
    ensures Matches(d, fc) == []
    decreases |fc|
  {
    if fc != [] {
      MatchesNone(d, fc[1..]);
    }
  }

  /** Every history row is scored exactly once, against the forecast at its
      own date: the merge loses no row and duplicates none. */
  lemma {:induction false} JoinedPairs(data: seq<Point>, dates: seq<int>, yhat: int -> real)
    requires Increasing(dates) && forall p :: p in data ==> p.key in dates
    ensures Joined(data, Forecast(dates, yhat)) ==
      seq(|data|, i requires 0 <= i < |data| => (data[i].val, yhat(data[i].key)))
    decreases |data|
  {
    if data != [] {
      var fc := Forecast(dates, yhat);
      assert PointKeys(fc) == dates;
      MatchesOnce(data[0].key, fc);
      var i :| 0 <= i < |fc| && fc[i].key == data[0].key && Matches(data[0].key, fc) == [fc[i].val];
      assert forall p :: p in data[1..] ==> p in data;
      JoinedPairs(data[1..], dates, yhat);
    }
  }

  // ----- one variable -----

  /** One entry of `all_metrics`. MAPE is pandas' mean of the relative
      errors, which may be infinite or NaN. */
  datatype MetricRow = MetricRow(variable: string, model: string, rmse: real, mae: real, mape: Ext)

  function Actual(pairs: seq<(real, real)>): (ys: seq<real>)
    ensures |ys| == |pairs| && forall i :: 0 <= i < |pairs| ==> ys[i] == pairs[i].0
  {
    seq(|pairs|, i requires 0 <= i < |pairs| => pairs[i].0)
  }

  function Predicted(pairs: seq<(real, real)>): (ps: seq<real>)
    ensures |ps| == |pairs| && forall i :: 0 <= i < |pairs| ==> ps[i] == pairs[i].1
  {
    seq(|pairs|, i requires 0 <= i < |pairs| => pairs[i].1)
  }

  /** One turn of the loop over the variables: fit on the dated non-missing rows,
      forecast, merge, and score; RMSE and MAE rounded to 4 places, MAPE
      (in percent, with no guard against a zero actual) to 2. */
  function VariableRow(t: Table, c: string, fit: ProphetFit, sqrt: real -> real, round: (real, int) -> real): (r: Outcome<MetricRow>)
    ensures r.Ok? ==> r.value.variable == c && r.value.model == "Prophet"
  {
    match DatedSeries(t, c)
    case Err(m) => Err(m)
    case Ok(data) =>
      match fit(data)
      case Err(m) => Err(m)
      case Ok(yhat) =>
        var pairs := Joined(data, Forecast(FutureDates(data), yhat));
        var ys, ps := Actual(pairs), Predicted(pairs);
        match Score(ys, ps, SkEps)
        case Err(m) => Err(m)
        case Ok(s) =>
          Ok(MetricRow(c, "Prophet", round(sqrt(s.mse), 4), round(s.mae, 4), RoundExt(PandasMape(ys, ps), round, 2)))
  }

  /** The scores of one variable are those of its observed values against
      the forecast at their own dates; with an exact square root and exact
      rounding, RMSE squares to their MSE and is 0 exactly when the forecast
      hits every observation, MAE and MAPE are exactly theirs, and a zero
      observation the forecast misses makes MAPE infinite. */
  lemma VariableRowScores(t: Table, c: string, fit: ProphetFit, sqrt: real -> real, round: (real, int) -> real)
    requires DatedSeries(t, c).Ok? && fit(DatedSeries(t, c).value).Ok?
    ensures var data := DatedSeries(t, c).value;
      var yhat := fit(data).value;
      var ys := seq(|data|, i requires 0 <= i < |data| => data[i].val);
      var ps := seq(|data|, i requires 0 <= i < |data| => yhat(data[i].key));
      var r := VariableRow(t, c, fit, sqrt, round);
      (r.Ok? <==> |data| > 0) &&
      (r.Ok? && (forall x, d :: round(x, d) == x) ==>
        r.value.mae == Mae(ys, ps) && r.value.mape == PandasMape(ys, ps) &&
        ((exists i :: 0 <= i < |data| && ys[i] == 0.0 && ps[i] != 0.0) ==> r.value.mape == PosInf))
    ensures var data := DatedSeries(t, c).value;
      var yhat := fit(data).value;
      var ys := seq(|data|, i requires 0 <= i < |data| => data[i].val);
      var ps := seq(|data|, i requires 0 <= i < |data| => yhat(data[i].key));
      var r := VariableRow(t, c, fit, sqrt, round);
      r.Ok? && IsSqrt(sqrt) && (forall x, d :: round(x, d) == x) ==> RmseOf(r.value.rmse, ys, ps)
  {
    var data := DatedSeries(t, c).value;
    var yhat := fit(data).value;
    var ys := seq(|data|, i requires 0 <= i < |data| => data[i].val);
    var ps := seq(|data|, i requires 0 <= i < |data| => yhat(data[i].key));
    if |data| > 0 {
      FutureDatesFacts(data);
      JoinedPairs(data, FutureDates(data), yhat);
      var pairs := Joined(data, Forecast(FutureDates(data), yhat));
      assert Actual(pairs) == ys;
      assert Predicted(pairs) == ps;
      var r := VariableRow(t, c, fit, sqrt, round);
      if r.Ok? && IsSqrt(sqrt) && (forall x, d :: round(x, d) == x) {
        assert r.value.rmse == round(sqrt(Mse(ys, ps)), 4);
        RoundedRmse(ys, ps, sqrt, round);
      }
      if exists i :: 0 <= i < |data| && ys[i] == 0.0 && ps[i] != 0.0 {
        var i :| 0 <= i < |data| && ys[i] == 0.0 && ps[i] != 0.0;
        PandasMapeZeroActual(ys, ps, i);
      }
    } else {
      assert FutureDates(data) == [];
    }
  }

  /** An RMSE that is non-negative, squares to the MSE of the forecast and
      is 0 exactly when the forecast hits every observation. */
  ghost predicate RmseOf(rmse: real, ys: seq<real>, ps: seq<real>)
    requires |ys| == |ps| > 0
  {
    rmse >= 0.0 && rmse * rmse == Mse(ys, ps) &&
    (rmse == 0.0 <==> forall i :: 0 <= i < |ys| ==> ys[i] == ps[i])
  }

  lemma RoundedRmse(ys: seq<real>, ps: seq<real>, sqrt: real -> real, round: (real, int) -> real)
    requires |ys| == |ps| > 0 && IsSqrt(sqrt) && forall x, d :: round(x, d) == x
    ensures RmseOf(round(sqrt(Mse(ys, ps)), 4), ys, ps)
  {
    RmseZeroIffExact(ys, ps, sqrt);
    assert round(sqrt(Mse(ys, ps)), 4) == Rmse(ys, ps, sqrt);
  }

  // ----- the loop and the metrics file -----

  /** `all_metrics` after the first n variables; any error ends the script. */
  function AllMetrics(t: Table, n: nat, fit: ProphetFit, sqrt: real -> real, round: (real, int) -> real): (r: Outcome<seq<MetricRow>>)
    requires n <= |Targets|
    ensures r.Ok? ==> |r.value| == n
  {
    if n == 0 then Ok([])
    else
      match AllMetrics(t, n - 1, fit, sqrt, round)
      case Err(m) => Err(m)
      case Ok(rows) =>
        match VariableRow(t, Targets[n - 1], fit, sqrt, round)
        case Err(m) => Err(m)
        case Ok(row) => Ok(rows + [row])
  }

  /** The rows are complete exactly when every variable succeeds, and row j
      is that of the j-th variable. */
  lemma {:induction false} AllMetricsFacts(t: Table, n: nat, fit: ProphetFit, sqrt: real -> real, round: (real, int) -> real)
    requires n <= |Targets|
    ensures AllMetrics(t, n, fit, sqrt, round).Ok? <==> forall j :: 0 <= j < n ==> VariableRow(t, Targets[j], fit, sqrt, round).Ok?
    ensures AllMetrics(t, n, fit, sqrt, round).Ok? ==>
      forall j :: 0 <= j < n ==> AllMetrics(t, n, fit, sqrt, round).value[j] == VariableRow(t, Targets[j], fit, sqrt, round).value
    decreases n
  {
    if n > 0 {
      AllMetricsFacts(t, n - 1, fit, sqrt, round);
    }
  }

  /** A MAPE as the metrics file holds it: an infinite mean is written
      "inf" and a NaN mean is an empty cell. */
  function MapeCell(m: Ext): Cell {
    match m
    case Fin(v) => Num(v)
    case PosInf => Text("inf")
    case NaN => Null
  }

  const Header: seq<string> := ["Variable", "Model", "RMSE", "MAE", "MAPE"]

  /** `pd.DataFrame(all_metrics)`: one row per entry, the keys as columns. */
  function MetricsTable(rows: seq<MetricRow>): (r: Table)
    ensures WellFormed(r) && r.cols == Header && |r.rows| == |rows|
  {
    Table(Header, seq(|rows|, i requires 0 <= i < |rows| => RowCells(rows[i])))
  }

  /** One entry as a row of cells, in header order. */
  function RowCells(m: MetricRow): (cells: seq<Cell>)
    ensures |cells| == |Header|
  {
    [Text(m.variable), Text(m.model), Num(m.rmse), Num(m.mae), MapeCell(m.mape)]
  }

  /** A cell of the table is the entry's cell at that name's position. */
  lemma CellAt(rows: seq<MetricRow>, i: nat, k: nat)
    requires i < |rows| && k < |Header|
    ensures Get(MetricsTable(rows), i, Header[k]) == RowCells(rows[i])[k]
  {
    HeaderAt(k);
  }

  /** Each row of the table reads back its entry under the column names. */
  lemma MetricsTableCells(rows: seq<MetricRow>, i: nat)
    requires i < |rows|
    ensures var r := MetricsTable(rows);
      Get(r, i, "Variable") == Text(rows[i].variable) && Get(r, i, "Model") == Text(rows[i].model) &&
      Get(r, i, "RMSE") == Num(rows[i].rmse) && Get(r, i, "MAE") == Num(rows[i].mae) &&
      Get(r, i, "MAPE") == MapeCell(rows[i].mape)
  {
    var cells := RowCells(rows[i]);
    CellAt(rows, i, 0);
    CellAt(rows, i, 1);
    CellAt(rows, i, 2);
    CellAt(rows, i, 3);
    CellAt(rows, i, 4);
    assert Header[0] == "Variable" && Header[1] == "Model" && Header[2] == "RMSE" && Header[3] == "MAE" && Header[4] == "MAPE";
  }

  /** The header's names are distinct, so each is found where it stands. */
  lemma HeaderAt(k: nat)
    requires k < |Header|
    ensures Find(Header, Header[k]) == k
  {
    assert |Header[0]| == 8 && |Header[1]| == 5 && |Header[2]| == 4 && |Header[3]| == 3 && |Header[4]| == 4;
    assert Header[2][1] == 'M' && Header[4][1] == 'A';
    FindFirst(Header, Header[k], k);
  }

  /** The whole script: the metrics file after the run. */
  function ProphetWeather(df: Table, parse: string -> Option<int>, fit: ProphetFit,
                          sqrt: real -> real, round: (real, int) -> real, existing: Option<Table>): Outcome<Table>
    requires WellFormed(df)
  {
    match ReadWeather(df, parse)
    case Err(m) => Err(m)
    case Ok(t) =>
      match AllMetrics(t, |Targets|, fit, sqrt, round)
      case Err(m) => Err(m)
      case Ok(rows) => Ok(Appended(existing, MetricsTable(rows)))
  }

  /** The metrics file keeps its existing rows first and then has one row
      per variable, in order, with Model "Prophet". */
  lemma ProphetWeatherRows(df: Table, parse: string -> Option<int>, fit: ProphetFit,
                           sqrt: real -> real, round: (real, int) -> real, existing: Option<Table>, c: string)
    requires WellFormed(df) && ProphetWeather(df, parse, fit, sqrt, round, existing).Ok?
    ensures NamedAfter(ProphetWeather(df, parse, fit, sqrt, round, existing).value, existing, Targets, c)
  {
    var t := ReadWeather(df, parse).value;
    var rows := AllMetrics(t, |Targets|, fit, sqrt, round).value;
    var m := MetricsTable(rows);
    assert ProphetWeather(df, parse, fit, sqrt, round, existing).value == Appended(existing, m);
    RowsNamed(t, fit, sqrt, round);
    MetricsNamed(rows, Targets);
    AppendedNamed(existing, m, Targets, c);
  }

  /** r is the existing file (if any), unaltered under column c, followed by
      one row per name, in order, with that Variable and Model "Prophet". */
  ghost predicate NamedAfter(r: Table, existing: Option<Table>, names: seq<string>, c: string) {
    var n := if existing.Some? then |existing.value.rows| else 0;
    |r.rows| == n + |names| &&
    (existing.Some? ==> forall i :: 0 <= i < n ==> Get(r, i, c) == Get(existing.value, i, c)) &&
    forall j :: 0 <= j < |names| ==> Get(r, n + j, "Variable") == Text(names[j]) && Get(r, n + j, "Model") == Text("Prophet")
  }

  /** A complete run has one row per variable, in order, named "Prophet". */
  lemma RowsNamed(t: Table, fit: ProphetFit, sqrt: real -> real, round: (real, int) -> real)
    requires AllMetrics(t, |Targets|, fit, sqrt, round).Ok?
    ensures var rows := AllMetrics(t, |Targets|, fit, sqrt, round).value;
      forall j :: 0 <= j < |rows| ==> rows[j].variable == Targets[j] && rows[j].model == "Prophet"
  {
    AllMetricsFacts(t, |Targets|, fit, sqrt, round);
  }

  /** Each row of the metrics table names its variable and the model. */
  lemma MetricsNamed(rows: seq<MetricRow>, names: seq<string>)
    requires |rows| == |names|
    requires forall j :: 0 <= j < |rows| ==> rows[j].variable == names[j] && rows[j].model == "Prophet"
    ensures var m := MetricsTable(rows);
      |m.rows| == |names| &&
      forall j :: 0 <= j < |names| ==> Get(m, j, "Variable") == Text(names[j]) && Get(m, j, "Model") == Text("Prophet")
  {
    forall j | 0 <= j < |names|
      ensures Get(MetricsTable(rows), j, "Variable") == Text(names[j]) && Get(MetricsTable(rows), j, "Model") == Text("Prophet")
    {
      MetricsTableCells(rows, j);
    }
  }

  /** Appending a table of named rows: the existing rows are kept first and
      the new rows follow with their names. */
  lemma AppendedNamed(existing: Option<Table>, m: Table, names: seq<string>, c: string)
    requires |m.rows| == |names|
    requires forall j :: 0 <= j < |names| ==> Get(m, j, "Variable") == Text(names[j]) && Get(m, j, "Model") == Text("Prophet")
    ensures NamedAfter(Appended(existing, m), existing, names, c)
  {
    AppendedRows(existing, m, c);
    AppendedRows(existing, m, "Variable");
    AppendedRows(existing, m, "Model");
  }

  /** The whole script: the loop over the variables appends one row each to
      `all_metrics`, then the rows are appended to the metrics file. */
  method RunProphetWeather(df: Table, parse: string -> Option<int>, fit: ProphetFit,
                           sqrt: real -> real, round: (real, int) -> real, existing: Option<Table>)
    returns (r: Outcome<Table>)
    requires WellFormed(df)
    ensures r == ProphetWeather(df, parse, fit, sqrt, round, existing)
  {
    var read := ReadWeather(df, parse);
    if read.Err? {
      return Err(read.msg);
    }
    var t := read.value;
    var all: seq<MetricRow> := [];
    for j := 0 to |Targets|
      invariant AllMetrics(t, j, fit, sqrt, round) == Ok(all)
    {
      var row := VariableRow(t, Targets[j], fit, sqrt, round);
      if row.Err? {
        r := Err(row.msg);
        AllMetricsStaysErr(t, j + 1, fit, sqrt, round);
        return;
      }
      all := all + [row.value];
    }
    r := Ok(Appended(existing, MetricsTable(all)));
  }

  lemma {:induction false} AllMetricsStaysErr(t: Table, n: nat, fit: ProphetFit, sqrt: real -> real, round: (real, int) -> real)
    requires n <= |Targets| && AllMetrics(t, n, fit, sqrt, round).Err?
    ensures AllMetrics(t, |Targets|, fit, sqrt, round) == AllMetrics(t, n, fit, sqrt, round)
    decreases |Targets| - n
  {
    if n < |Targets| {
      AllMetricsStaysErr(t, n + 1, fit, sqrt, round);
    }
  }
}
