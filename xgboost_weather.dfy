/** backend/weather_data_files/xgboost_univariate_weather.py: the weather
    file sorted by DATE, each temperature variable turned into 30 lagged
    features and a target, the last 30 samples held out, and one metrics
    row per variable present, appended to the XGBoost summary file. The
    regressor and the square root are parameters; plots are not modelled. */
module XgboostWeather {
  import opened Wrappers
  import opened Frames
  import opened Columns
  import opened Aggregate
  import opened Metrics
  import opened WeatherModels
  import XgboostUnivariate
  import PySeq

  /** `forecast_horizon`: the number of held-out samples. */
  const Horizon: nat := 30
  /** `lags`: the number of lagged features per sample. */
  const Lags: nat := 30

  // ----- sorting by DATE -----

  predicate Dated(c: Cell) {
    c.Date?
  }

  predicate Undated(c: Cell) {
    !c.Date?
  }

  /** The day a row's DATE holds (0 for NaT, which never reaches the sort). */
  function DayOf(cols: seq<string>, row: seq<Cell>): int {
    var d := Lookup(cols, row, "DATE");
    if d.Date? then d.day else 0
  }

  /** The sort key of a row. */
  function ByDay(cols: seq<string>): seq<Cell> -> int {
    row => DayOf(cols, row)
  }

  /** `df.sort_values("DATE")`: the dated rows ascending by day, then the
      NaT rows in their original order. */
  function SortByDate(t: Table): (r: Table)
    ensures r.cols == t.cols
  {
    Table(t.cols, SortBy(DatedRows(t), ByDay(t.cols)) + UndatedRows(t))
  }

  function DatedRows(t: Table): seq<seq<Cell>> {
    KeepRows(t.cols, t.rows, "DATE", Dated)
  }

  function UndatedRows(t: Table): seq<seq<Cell>> {
    KeepRows(t.cols, t.rows, "DATE", Undated)
  }

  /** A filter and the filter on the opposite test share out the rows. */
  lemma {:induction false} SplitCount(cols: seq<string>, rows: seq<seq<Cell>>)
    ensures multiset(KeepRows(cols, rows, "DATE", Dated)) + multiset(KeepRows(cols, rows, "DATE", Undated)) == multiset(rows)
    decreases |rows|
  {
    if rows != [] {
      var h, tl := rows[0], rows[1..];
      SplitCount(cols, tl);
      assert rows == [h] + tl;
      KeepRowsCons(cols, h, tl, "DATE", Dated);
      KeepRowsCons(cols, h, tl, "DATE", Undated);
    }
  }

  /** Sorting moves rows without adding or losing any. */
  lemma SortByDatePermutes(t: Table)
    ensures multiset(SortByDate(t).rows) == multiset(t.rows) && |SortByDate(t).rows| == |t.rows|
  {
    var r := SortByDate(t).rows;
    var s := SortBy(DatedRows(t), ByDay(t.cols));
    SplitCount(t.cols, t.rows);
    assert r == s + UndatedRows(t);
    assert multiset(r) == multiset(s) + multiset(UndatedRows(t));
    assert |multiset(r)| == |r| && |multiset(t.rows)| == |t.rows|;
  }

  /** The dated rows come first, in ascending order of day; every row after
      them is NaT. */
  lemma SortByDateOrder(t: Table)
    ensures var r := SortByDate(t);
      var m := |DatedRows(t)|;
      m <= |r.rows| &&
      (forall i :: 0 <= i < m ==> Get(r, i, "DATE").Date?) &&
      (forall i, j :: 0 <= i < j < m ==> Get(r, i, "DATE").day <= Get(r, j, "DATE").day) &&
      (forall i :: m <= i < |r.rows| ==> !Get(r, i, "DATE").Date?)
  {
    var s := SortBy(DatedRows(t), ByDay(t.cols));
    var r := SortByDate(t);
    assert r.rows == s + UndatedRows(t);
    assert |s| == |DatedRows(t)| by {
      assert |multiset(s)| == |multiset(DatedRows(t))|;
    }
    forall i | 0 <= i < |s| ensures Get(r, i, "DATE").Date? && Get(r, i, "DATE").day == ByDay(t.cols)(s[i]) {
      SortedRow(t, i);
    }
    forall i, j | 0 <= i < j < |s| ensures Get(r, i, "DATE").day <= Get(r, j, "DATE").day {
      assert ByDay(t.cols)(s[i]) <= ByDay(t.cols)(s[j]);
    }
    forall i | |s| <= i < |r.rows| ensures !Get(r, i, "DATE").Date? {
      UndatedRow(t, i - |s|);
    }
  }

  /** Row i of the sorted dated part is dated, and its key is its day. */
  lemma SortedRow(t: Table, i: nat)
    requires i < |SortBy(DatedRows(t), ByDay(t.cols))|
    ensures var row := SortBy(DatedRows(t), ByDay(t.cols))[i];
      i < |SortByDate(t).rows| && SortByDate(t).rows[i] == row &&
      Lookup(t.cols, row, "DATE").Date? && Lookup(t.cols, row, "DATE").day == ByDay(t.cols)(row)
  {
    var s := SortBy(DatedRows(t), ByDay(t.cols));
    var d := DatedRows(t);
    assert s[i] in multiset(s);
    assert s[i] in multiset(d);
    var j :| 0 <= j < |d| && d[j] == s[i];
    assert SortByDate(t).rows == s + UndatedRows(t);
  }

  /** The rows after the dated part are the NaT rows in order. */
  lemma UndatedRow(t: Table, k: nat)
    requires k < |UndatedRows(t)|
    ensures var m := |SortBy(DatedRows(t), ByDay(t.cols))|;
      m + k < |SortByDate(t).rows| && !Lookup(t.cols, SortByDate(t).rows[m + k], "DATE").Date?
  {
    var s := SortBy(DatedRows(t), ByDay(t.cols));
    assert SortByDate(t).rows == s + UndatedRows(t);
    assert SortByDate(t).rows[|s| + k] == UndatedRows(t)[k];
  }

  // ----- lag features -----

  /** Row t of the lagged frame survives `dropna()`: its value and its k
      lags are all present, which needs at least k rows above it. */
  predicate Complete(s: seq<Option<real>>, k: nat, t: nat)
    requires t < |s|
  {
    t >= k && s[t].Some? && forall i :: t - k <= i < t ==> s[i].Some?
  }

  /** One sample: `lag_1` .. `lag_k` (newest first) and `y`. */
  datatype Sample = Sample(x: seq<real>, y: real)

  /** The sample built from row t. */
  function SampleAt(s: seq<Option<real>>, k: nat, t: nat): (r: Sample)
    requires t < |s| && Complete(s, k, t)
  {
    Sample(seq(k, j requires 0 <= j < k => s[t - 1 - j].value), s[t].value)
  }

  /** The samples of the rows above n that survive `dropna()`, in order. */
  function Samples(s: seq<Option<real>>, k: nat, n: nat): seq<Sample>
    requires n <= |s|
  {
    if n == 0 then []
    else Samples(s, k, n - 1) + (if Complete(s, k, n - 1) then [SampleAt(s, k, n - 1)] else [])
  }

  /** The row numbers those samples come from. */
  function Kept(s: seq<Option<real>>, k: nat, n: nat): (ts: seq<nat>)
    requires n <= |s|
  {
    if n == 0 then []
    else Kept(s, k, n - 1) + (if Complete(s, k, n - 1) then [n - 1] else [])
  }

  /** Sample r comes from the r-th surviving row: the rows kept are exactly
      the complete ones, in ascending order, each at least k; the sample's
      j-th feature is the value j + 1 rows above its target. */
  lemma {:induction false} SamplesFacts(s: seq<Option<real>>, k: nat, n: nat)
    requires n <= |s|
    ensures var ks := Kept(s, k, n);
      |Samples(s, k, n)| == |ks| &&
      (forall t: nat :: t in ks <==> t < n && Complete(s, k, t)) &&
      (forall a, b :: 0 <= a < b < |ks| ==> ks[a] < ks[b]) &&
      forall r :: 0 <= r < |ks| ==> ks[r] < n && Complete(s, k, ks[r]) && Samples(s, k, n)[r] == SampleAt(s, k, ks[r])
    decreases n
  {
    if n > 0 {
      SamplesFacts(s, k, n - 1);
    }
  }

  /** A sample's features are the k values before its target, newest first. */
  lemma SampleFeatures(s: seq<Option<real>>, k: nat, t: nat, j: nat)
    requires t < |s| && Complete(s, k, t) && j < k
    ensures Some(SampleAt(s, k, t).x[j]) == s[t - 1 - j] && Some(SampleAt(s, k, t).y) == s[t] && t - 1 - j < t
  {
  }

  /** With no gap in the series, exactly the first k rows are dropped. */
  lemma {:induction false} GapFreeKept(s: seq<Option<real>>, k: nat, n: nat)
    requires n <= |s| && forall t :: 0 <= t < |s| ==> s[t].Some?
    ensures Kept(s, k, n) == seq(if n >= k then n - k else 0, r => k + r)
    decreases n
  {
    if n > 0 {
      GapFreeKept(s, k, n - 1);
      assert Complete(s, k, n - 1) <==> n - 1 >= k;
    }
  }

  /** `create_lag_features`: the k shifted columns are built one at a time,
      `y` is the series itself, and `dropna()` keeps the complete rows. */
  method CreateLagFeatures(series: seq<Option<real>>, k: nat) returns (samples: seq<Sample>)
    ensures samples == Samples(series, k, |series|)
  {
    var lagged: seq<seq<Option<real>>> := [];
    for i := 1 to k + 1
      invariant |lagged| == i - 1
      invariant forall j :: 0 <= j < |lagged| ==> lagged[j] == PySeq.Shift(series, j + 1)
    {
      lagged := lagged + [PySeq.Shift(series, i)];
    }
    samples := [];
    for t := 0 to |series|
      invariant samples == Samples(series, k, t)
    {
      var present := RowPresent(series, lagged, t);
      if present {
        assert Complete(series, k, t) by {
          if k > 0 {
            assert lagged[k - 1][t].Some?;
          }
          forall i | t - k <= i < t ensures series[i].Some? {
            assert lagged[t - i - 1][t] == series[i];
          }
        }
        var x := seq(k, j requires 0 <= j < k => lagged[j][t].value);
        assert x == SampleAt(series, k, t).x;
        samples := samples + [Sample(x, series[t].value)];
      }
    }
  }

  /** `dropna()` on one row of the lagged frame: `y` and every lag present. */
  method RowPresent(series: seq<Option<real>>, lagged: seq<seq<Option<real>>>, t: nat) returns (present: bool)
    requires t < |series| && forall j :: 0 <= j < |lagged| ==> |lagged[j]| == |series|
    ensures present <==> series[t].Some? && forall j :: 0 <= j < |lagged| ==> lagged[j][t].Some?
  {
    present := series[t].Some?;
    for j := 0 to |lagged|
      invariant present <==> series[t].Some? && forall i :: 0 <= i < j ==> lagged[i][t].Some?
    {
      if lagged[j][t].None? {
        present := false;
      }
    }
  }

  // ----- the split and the scores -----

  /** `train_test_split(..., test_size=test, shuffle=False)`: the last
      `test` items are the test set; scikit-learn refuses a test size that
      is not below the number of items. */
  function Split<T>(xs: seq<T>, test: nat): (r: Outcome<(seq<T>, seq<T>)>)
    ensures r.Ok? <==> 0 < test < |xs|
    ensures r.Ok? ==> r.value.0 + r.value.1 == xs && |r.value.1| == test
  {
    if test == 0 || test >= |xs| then Err("test_size should be either positive and smaller than the number of samples")
    else Ok((xs[..|xs| - test], xs[|xs| - test..]))
  }

  function Features(ss: seq<Sample>): (xs: seq<seq<real>>)
    ensures |xs| == |ss| && forall i :: 0 <= i < |ss| ==> xs[i] == ss[i].x
  {
    seq(|ss|, i requires 0 <= i < |ss| => ss[i].x)
  }

  function Labels(ss: seq<Sample>): (ys: seq<real>)
    ensures |ys| == |ss| && forall i :: 0 <= i < |ss| ==> ys[i] == ss[i].y
  {
    seq(|ss|, i requires 0 <= i < |ss| => ss[i].y)
  }

  /** One entry of `metrics_list`: `[column, mae, mse, r2]`. */
  datatype Entry = Entry(variable: string, mae: real, mse: real, r2: Option<real>)

  /** A cell pandas reads as a number or as NaN. */
  predicate NumericCell(c: Cell) {
    c.Num? || c.Null?
  }

  /** `df[column]` as a float series; a text or date value is one the
      regressor cannot take. */
  function Series(t: Table, c: string): (r: Outcome<seq<Option<real>>>)
    ensures r.Ok? <==> forall i :: 0 <= i < |t.rows| ==> NumericCell(Get(t, i, c))
    ensures r.Ok? ==> (|r.value| == |t.rows| &&
      forall i :: 0 <= i < |t.rows| ==> (r.value[i].Some? <==> Get(t, i, c).Num?) && (r.value[i].Some? ==> r.value[i].value == Get(t, i, c).x))
  {
    if exists i :: 0 <= i < |t.rows| && !NumericCell(Get(t, i, c)) then Err("could not convert string to float")
    else Ok(seq(|t.rows|, i requires 0 <= i < |t.rows| => if Get(t, i, c).Num? then Some(Get(t, i, c).x) else None))
  }

  /** `train_and_forecast` for one column: lag, split, fit, predict, score. */
  function ColumnEntry(t: Table, c: string, model: XgboostUnivariate.Regressor): (r: Outcome<Entry>)
    ensures r.Ok? ==> r.value.variable == c
  {
    match Series(t, c)
    case Err(m) => Err(m)
    case Ok(series) =>
      match Split(Samples(series, Lags, |series|), Horizon)
      case Err(m) => Err(m)
      case Ok(parts) =>
        match model(Features(parts.0), Labels(parts.0), Features(parts.1))
        case Err(m) => Err(m)
        case Ok(preds) =>
          var ys := Labels(parts.1);
          match Score(ys, preds, SkEps)
          case Err(m) => Err(m)
          case Ok(s) => Ok(Entry(c, s.mae, s.mse, R2(ys, preds)))
  }

  /** A column scores exactly when it is numeric, leaves more than 30
      samples, and the regressor predicts all 30; the regressor then sees
      the samples before the last 30 as training data, and the scores are
      those of the last 30 targets against the predictions. */
  lemma ColumnEntryFacts(t: Table, c: string, model: XgboostUnivariate.Regressor)
    requires Series(t, c).Ok?
    ensures var series := Series(t, c).value;
      var ss := Samples(series, Lags, |series|);
      var n := |ss|;
      var r := ColumnEntry(t, c, model);
      (n <= Horizon ==> r.Err?) &&
      (n > Horizon ==>
        var pred := model(Features(ss[..n - Horizon]), Labels(ss[..n - Horizon]), Features(ss[n - Horizon..]));
        var ys := Labels(ss[n - Horizon..]);
        (r.Ok? <==> pred.Ok? && |pred.value| == Horizon) &&
        (r.Ok? ==> (r.value.mse == Mse(ys, pred.value) && r.value.mae == Mae(ys, pred.value) &&
          r.value.r2 == R2(ys, pred.value) && r.value.r2.Some?)))
  {
  }

  /** With no gap in the series, the held-out targets are the series' last
      30 values. */
  lemma GapFreeTest(s: seq<Option<real>>, j: nat)
    requires forall t :: 0 <= t < |s| ==> s[t].Some?
    requires |s| >= Lags + Horizon && j < Horizon
    ensures var ss := Samples(s, Lags, |s|);
      |ss| == |s| - Lags && Some(ss[|ss| - Horizon + j].y) == s[|s| - Horizon + j]
  {
    SamplesFacts(s, Lags, |s|);
    GapFreeKept(s, Lags, |s|);
    var ks := Kept(s, Lags, |s|);
    assert ks[|ks| - Horizon + j] == |s| - Horizon + j;
  }

  // ----- the loop over the variables -----

  /** `train_and_forecast` as a function of the column name. */
  function Scorer(t: Table, model: XgboostUnivariate.Regressor): string -> Outcome<Entry> {
    c => ColumnEntry(t, c, model)
  }

  /** The entries after the loop has run over `names`; a column missing
      from `cols` is skipped and any error ends the script. */
  function Entries(cols: seq<string>, names: seq<string>, score: string -> Outcome<Entry>): (r: Outcome<seq<Entry>>)
    decreases |names|
  {
    if names == [] then Ok([])
    else
      var c := names[|names| - 1];
      match Entries(cols, names[..|names| - 1], score)
      case Err(m) => Err(m)
      case Ok(es) =>
        if c !in cols then Ok(es)
        else
          match score(c)
          case Err(m) => Err(m)
          case Ok(e) => Ok(es + [e])
  }

  /** The names the table has, in order. */
  function Present(cols: seq<string>, names: seq<string>): (ps: seq<string>)
    ensures forall c :: c in ps <==> c in names && c in cols
    decreases |names|
  {
    if names == [] then []
    else
      var c := names[|names| - 1];
      assert names == names[..|names| - 1] + [c];
      Present(cols, names[..|names| - 1]) + (if c in cols then [c] else [])
  }

  /** Every name in the list scores. */
  predicate AllScore(ps: seq<string>, score: string -> Outcome<Entry>) {
    forall j :: 0 <= j < |ps| ==> score(ps[j]).Ok?
  }

  lemma AllScoreSnoc(ps: seq<string>, c: string, score: string -> Outcome<Entry>)
    ensures AllScore(ps + [c], score) <==> AllScore(ps, score) && score(c).Ok?
  {
    assert forall j :: 0 <= j < |ps| ==> (ps + [c])[j] == ps[j];
    assert (ps + [c])[|ps|] == c;
  }

  /** The entries are complete exactly when every present column scores. */
  lemma {:induction false} EntriesOk(cols: seq<string>, names: seq<string>, score: string -> Outcome<Entry>)
    ensures Entries(cols, names, score).Ok? <==> AllScore(Present(cols, names), score)
    decreases |names|
  {
    if names != [] {
      var init := names[..|names| - 1];
      var c := names[|names| - 1];
      EntriesOk(cols, init, score);
      var ps0 := Present(cols, init);
      if c in cols {
        assert Present(cols, names) == ps0 + [c];
        AllScoreSnoc(ps0, c, score);
      } else {
        assert Present(cols, names) == ps0;
      }
    }
  }

  /** There is one entry per present column, in order, and it is that
      column's. */
  lemma {:induction false} EntriesValues(cols: seq<string>, names: seq<string>, score: string -> Outcome<Entry>)
    requires Entries(cols, names, score).Ok?
    ensures var es := Entries(cols, names, score).value;
      var ps := Present(cols, names);
      |es| == |ps| && forall j :: 0 <= j < |ps| ==> score(ps[j]) == Ok(es[j])
    decreases |names|
  {
    if names != [] {
      var init := names[..|names| - 1];
      var c := names[|names| - 1];
      EntriesValues(cols, init, score);
      var ps0 := Present(cols, init);
      var ps := Present(cols, names);
      if c in cols {
        assert ps == ps0 + [c];
      } else {
        assert ps == ps0;
      }
    }
  }

  /** Every name appears once at most. */
  predicate NoRepeats(xs: seq<string>) {
    forall a, b :: 0 <= a < b < |xs| ==> xs[a] != xs[b]
  }

  /** Names listed once each give entries for distinct variables. */
  lemma {:induction false} PresentDistinct(cols: seq<string>, names: seq<string>)
    requires NoRepeats(names)
    ensures NoRepeats(Present(cols, names))
    decreases |names|
  {
    if names != [] {
      var init := names[..|names| - 1];
      var c := names[|names| - 1];
      assert forall a :: 0 <= a < |init| ==> init[a] == names[a];
      PresentDistinct(cols, init);
      var ps0 := Present(cols, init);
      assert c !in init;
      assert c !in ps0;
      if c in cols {
        var ps := ps0 + [c];
        assert Present(cols, names) == ps;
        forall a, b | 0 <= a < b < |ps| ensures ps[a] != ps[b] {
          assert ps[a] == ps0[a] && ps0[a] in ps0;
          if b < |ps0| {
            assert ps[b] == ps0[b];
          }
        }
      } else {
        assert Present(cols, names) == ps0;
      }
    }
  }

  /** The three targets are distinct. */
  lemma TargetsDistinct()
    ensures NoRepeats(Targets)
  {
    assert Targets[0][1] == 'a' && Targets[1][1] == 'i' && |Targets[2]| != |Targets[0]| && |Targets[2]| != |Targets[1]|;
  }

  // ----- the metrics file -----

  const Header: seq<string> := ["Variable", "Model", "RMSE", "MAE", "R²"]

  /** A score as a cell: a NaN R² is an empty cell. */
  function ScoreCell(v: Option<real>): Cell {
    if v.Some? then Num(v.value) else Null
  }

  /** One entry as the reordered row: RMSE is the square root of MSE. */
  function RowCells(e: Entry, sqrt: real -> real): (cells: seq<Cell>)
    ensures |cells| == |Header|
  {
    [Text(e.variable), Text("XGBoost"), Num(sqrt(e.mse)), Num(e.mae), ScoreCell(e.r2)]
  }

  /** The summary step: `metrics_df` with Model and RMSE added and the columns
      reordered. */
  function MetricsTable(es: seq<Entry>, sqrt: real -> real): (r: Table)
    ensures WellFormed(r) && r.cols == Header && |r.rows| == |es|
  {
    Table(Header, seq(|es|, i requires 0 <= i < |es| => RowCells(es[i], sqrt)))
  }

  lemma HeaderAt(k: nat)
    requires k < |Header|
    ensures Find(Header, Header[k]) == k
  {
    assert |Header[0]| == 8 && |Header[1]| == 5 && |Header[2]| == 4 && |Header[3]| == 3 && |Header[4]| == 2;
    assert Header[2][1] == 'M';
    FindFirst(Header, Header[k], k);
  }

  /** Each row reads back its entry under the column names. */
  lemma MetricsTableCells(es: seq<Entry>, sqrt: real -> real, i: nat)
    requires i < |es|
    ensures var r := MetricsTable(es, sqrt);
      Get(r, i, "Variable") == Text(es[i].variable) && Get(r, i, "Model") == Text("XGBoost") &&
      Get(r, i, "RMSE") == Num(sqrt(es[i].mse)) && Get(r, i, "MAE") == Num(es[i].mae) &&
      Get(r, i, "R²") == ScoreCell(es[i].r2)
  {
    HeaderAt(0);
    HeaderAt(1);
    HeaderAt(2);
    HeaderAt(3);
    HeaderAt(4);
    assert Header[0] == "Variable" && Header[1] == "Model" && Header[2] == "RMSE" && Header[3] == "MAE" && Header[4] == "R²";
  }

  // ----- the script -----

  /** The whole script: the summary file after the run. */
  function XgboostWeather(df: Table, parse: string -> Option<int>, model: XgboostUnivariate.Regressor,
                          sqrt: real -> real, existing: Option<Table>): Outcome<Table>
    requires WellFormed(df)
  {
    match ReadWeather(df, parse)
    case Err(m) => Err(m)
    case Ok(t) =>
      match Entries(t.cols, Targets, Scorer(SortByDate(t), model))
      case Err(m) => Err(m)
      case Ok(es) => Ok(Appended(existing, MetricsTable(es, sqrt)))
  }

  /** The entries of names that all score, in order. */
  function ScoresOf(ps: seq<string>, score: string -> Outcome<Entry>): (es: seq<Entry>)
    requires AllScore(ps, score)
    ensures |es| == |ps| && forall j :: 0 <= j < |ps| ==> score(ps[j]) == Ok(es[j])
  {
    seq(|ps|, j requires 0 <= j < |ps| => score(ps[j]).value)
  }

  /** The script succeeds only when every target present in the data
      scores; the summary file is then the existing rows followed by the
      metrics table of those targets' entries, one per target, in order and
      each once (SummaryRow says what each of those rows reads back). */
  lemma XgboostWeatherRows(df: Table, parse: string -> Option<int>, model: XgboostUnivariate.Regressor,
                           sqrt: real -> real, existing: Option<Table>)
    requires WellFormed(df) && XgboostWeather(df, parse, model, sqrt, existing).Ok?
    ensures var t := SortByDate(ReadWeather(df, parse).value);
      var ps := Present(df.cols, Targets);
      NoRepeats(ps) && AllScore(ps, Scorer(t, model)) &&
      XgboostWeather(df, parse, model, sqrt, existing).value == Appended(existing, MetricsTable(ScoresOf(ps, Scorer(t, model)), sqrt))
  {
    var t := SortByDate(ReadWeather(df, parse).value);
    var score := Scorer(t, model);
    var ps := Present(df.cols, Targets);
    EntriesOk(df.cols, Targets, score);
    EntriesValues(df.cols, Targets, score);
    TargetsDistinct();
    PresentDistinct(df.cols, Targets);
    assert Entries(df.cols, Targets, score).value == ScoresOf(ps, score);
  }

  /** Row i of a summary table reads back the entry's cells under the
      header's names. */
  predicate RowReads(r: Table, i: nat, e: Entry, sqrt: real -> real)
    requires i < |r.rows|
  {
    forall k :: 0 <= k < |Header| ==> Get(r, i, Header[k]) == RowCells(e, sqrt)[k]
  }

  /** After appending, entry j's row follows the existing rows and reads
      back its cells: the existing rows stay first and unchanged
      (AppendedRows). */
  lemma SummaryRow(existing: Option<Table>, es: seq<Entry>, sqrt: real -> real, j: nat)
    requires j < |es|
    ensures var n := if existing.Some? then |existing.value.rows| else 0;
      n + j < |Appended(existing, MetricsTable(es, sqrt)).rows| &&
      RowReads(Appended(existing, MetricsTable(es, sqrt)), n + j, es[j], sqrt)
  {
    var m := MetricsTable(es, sqrt);
    forall k | 0 <= k < |Header| ensures Get(m, j, Header[k]) == RowCells(es[j], sqrt)[k] {
      HeaderAt(k);
    }
    forall k | 0 <= k < |Header| {
      AppendedRow(existing, m, j, Header[k]);
    }
  }

  /** One appended row reads back its own cell. */
  lemma AppendedRow(existing: Option<Table>, added: Table, j: nat, c: string)
    requires j < |added.rows|
    ensures var n := if existing.Some? then |existing.value.rows| else 0;
      n + j < |Appended(existing, added).rows| && Get(Appended(existing, added), n + j, c) == Get(added, j, c)
  {
    AppendedRows(existing, added, c);
  }

  /** The whole script as run: read, sort, the loop, then the summary file. */
  method RunXgboostWeather(df: Table, parse: string -> Option<int>, model: XgboostUnivariate.Regressor,
                           sqrt: real -> real, existing: Option<Table>)
    returns (r: Outcome<Table>)
    requires WellFormed(df)
    ensures r == XgboostWeather(df, parse, model, sqrt, existing)
  {
    var read := ReadWeather(df, parse);
    if read.Err? {
      return Err(read.msg);
    }
    var t := SortByDate(read.value);
    var es := CollectEntries(t, Targets, model);
    if es.Err? {
      return Err(es.msg);
    }
    r := Ok(Appended(existing, MetricsTable(es.value, sqrt)));
  }

  /** The loop over the variables, training only on those
      present and appending each one's entry to `metrics_list`. */
  method CollectEntries(t: Table, names: seq<string>, model: XgboostUnivariate.Regressor) returns (r: Outcome<seq<Entry>>)
    ensures r == Entries(t.cols, names, Scorer(t, model))
  {
    var metrics: seq<Entry> := [];
    for j := 0 to |names|
      invariant Entries(t.cols, names[..j], Scorer(t, model)) == Ok(metrics)
    {
      var c := names[j];
      assert names[..j + 1][..j] == names[..j];
      if c in t.cols {
        var e := TrainAndForecast(t, c, model);
        if e.Err? {
          r := Err(e.msg);
          EntriesStaysErr(t.cols, names, j + 1, Scorer(t, model));
          return;
        }
        metrics := metrics + [e.value];
      }
    }
    assert names[..|names|] == names;
    r := Ok(metrics);
  }

  /** `train_and_forecast` for one column, with the lag features built by
      `CreateLagFeatures`. */
  method TrainAndForecast(t: Table, c: string, model: XgboostUnivariate.Regressor) returns (r: Outcome<Entry>)
    ensures r == ColumnEntry(t, c, model)
  {
    var series := Series(t, c);
    if series.Err? {
      return Err(series.msg);
    }
    var samples := CreateLagFeatures(series.value, Lags);
    var parts := Split(samples, Horizon);
    if parts.Err? {
      return Err(parts.msg);
    }
    var (train, test) := parts.value;
    var preds := model(Features(train), Labels(train), Features(test));
    if preds.Err? {
      return Err(preds.msg);
    }
    var ys := Labels(test);
    var s := Score(ys, preds.value, SkEps);
    if s.Err? {
      return Err(s.msg);
    }
    r := Ok(Entry(c, s.value.mae, s.value.mse, R2(ys, preds.value)));
  }

  /** Once the loop fails it stays failed with the same message. */
  lemma {:induction false} EntriesStaysErr(cols: seq<string>, names: seq<string>, j: nat, score: string -> Outcome<Entry>)
    requires j <= |names| && Entries(cols, names[..j], score).Err?
    ensures Entries(cols, names, score) == Entries(cols, names[..j], score)
    decreases |names| - j
  {
    if j < |names| {
      assert names[..j + 1][..j] == names[..j];
      EntriesStaysErr(cols, names, j + 1, score);
    } else {
      assert names[..j] == names;
    }
  }
}
