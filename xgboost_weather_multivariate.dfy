/** backend/weather_data_files/xgboost_multivariate_weather.py: each
    temperature variable regressed on every other numeric column of the
    weather file, on a seeded shuffled 80/20 split, with one metrics row per
    variable that has enough data, appended to the multivariate summary
    file. The regressor, the shuffle, the square root and the rounding are
    parameters; the predictions files are not modelled. */
module XgboostWeatherMultivariate {
  import opened Wrappers
  import opened Frames
  import opened Columns
  import opened Metrics
  import opened WeatherModels
  import XgboostUnivariate
  import XgboostWeather

  /** A variable with fewer non-missing rows than this is skipped. */
  const MinRows: nat := 100

  const ModelName: string := "XGBoost-Multivariate"

  // ----- the feature columns -----

  /** The feature selection over the given names: those that are neither a target
      nor DATE and hold only numbers and missing values, in header order. */
  function FeaturesOf(t: Table, cols: seq<string>): (fs: seq<string>)
    ensures forall c :: c in fs <==> c in cols && c !in Targets && c != "DATE" && NumericColumn(t, c)
    ensures |fs| <= |cols|
  {
    if cols == [] then []
    else
      assert forall c :: c in cols <==> c == cols[0] || c in cols[1..];
      var c := cols[0];
      (if c !in Targets && c != "DATE" && NumericColumn(t, c) then [c] else []) + FeaturesOf(t, cols[1..])
  }

  function FeatureColumns(t: Table): (fs: seq<string>)
    ensures forall c :: c in fs <==> c in t.cols && c !in Targets && c != "DATE" && NumericColumn(t, c)
  {
    FeaturesOf(t, t.cols)
  }

  // ----- one variable -----

  /** `fillna(0)` on one cell of a numeric column. */
  function ZeroFilled(c: Cell): real {
    if c.Num? then c.x else 0.0
  }

  /** `data[feature_columns].fillna(0)`: one row of numbers per data row. */
  function FeatureMatrix(data: Table, fs: seq<string>): (xs: seq<seq<real>>)
    ensures |xs| == |data.rows|
    ensures forall i :: 0 <= i < |xs| ==> |xs[i]| == |fs|
  {
    seq(|data.rows|, i requires 0 <= i < |data.rows| =>
      seq(|fs|, k requires 0 <= k < |fs| => ZeroFilled(Get(data, i, fs[k]))))
  }

  /** No gap survives the fill: a number stays, a missing value is 0. */
  lemma FeatureMatrixCells(data: Table, fs: seq<string>, i: nat, k: nat)
    requires i < |data.rows| && k < |fs|
    ensures var v := Get(data, i, fs[k]);
      FeatureMatrix(data, fs)[i][k] == (if v.Num? then v.x else 0.0)
  {
  }

  /** `data[target]` as numbers; a text value is one the regressor cannot
      take. */
  function Labels(data: Table, c: string): (r: Outcome<seq<real>>)
    ensures r.Ok? <==> forall i :: 0 <= i < |data.rows| ==> Get(data, i, c).Num?
    ensures r.Ok? ==> |r.value| == |data.rows| && forall i :: 0 <= i < |data.rows| ==> Num(r.value[i]) == Get(data, i, c)
  {
    if exists i :: 0 <= i < |data.rows| && !Get(data, i, c).Num? then Err("could not convert string to float")
    else Ok(seq(|data.rows|, i requires 0 <= i < |data.rows| => Get(data, i, c).x))
  }

  /** p lists every position below n once. */
  predicate IsPermutation(p: seq<nat>, n: nat) {
    |p| == n && (forall i :: 0 <= i < n ==> p[i] < n) && forall i, j :: 0 <= i < j < n ==> p[i] != p[j]
  }

  /** `random_state=42` fixes one permutation of each size. */
  ghost predicate Shuffles(shuffle: nat -> seq<nat>) {
    forall n: nat :: IsPermutation(shuffle(n), n)
  }

  /** `ceil(0.2 * n)`: the size of the test set. */
  function TestCount(n: nat): (k: nat)
    ensures 5 * k >= n && 5 * k < n + 5
  {
    (n + 4) / 5
  }

  /** `train_test_split(..., test_size=0.2)`: the first `ceil(0.2 n)`
      positions of the permutation are the test set, the rest the training
      set. */
  function ShuffleSplit<T>(xs: seq<T>, p: seq<nat>): (r: (seq<T>, seq<T>))
    requires IsPermutation(p, |xs|)
    ensures |r.1| == TestCount(|xs|) && |r.0| + |r.1| == |xs|
  {
    var k := TestCount(|xs|);
    (seq(|xs| - k, i requires 0 <= i < |xs| - k => xs[p[k + i]]), seq(k, i requires 0 <= i < k => xs[p[i]]))
  }

  /** The two parts draw on distinct rows: training item i is row p[k + i]
      and test item j is row p[j], and no row is in both. */
  lemma ShuffleSplitDisjoint<T>(xs: seq<T>, p: seq<nat>, i: nat, j: nat)
    requires IsPermutation(p, |xs|)
    requires i < |xs| - TestCount(|xs|) && j < TestCount(|xs|)
    ensures var k := TestCount(|xs|);
      ShuffleSplit(xs, p).0[i] == xs[p[k + i]] && ShuffleSplit(xs, p).1[j] == xs[p[j]] && p[k + i] != p[j]
  {
  }

  /** With at least 100 rows, both parts are large. */
  lemma SplitSizes(n: nat)
    requires n >= MinRows
    ensures TestCount(n) >= 20 && n - TestCount(n) >= 80
  {
  }

  /** One entry of `metrics_summary`. */
  datatype MetricRow = MetricRow(variable: string, model: string, rmse: real, mae: real, r2: Option<real>)

  /** One turn of the loop over the targets: `None` when it is skipped, else its
      row; the fit, the prediction or the scoring may fail. */
  function TargetRow(t: Table, c: string, model: XgboostUnivariate.Regressor, shuffle: nat -> seq<nat>,
                     sqrt: real -> real, round: (real, int) -> real): (r: Outcome<Option<MetricRow>>)
    requires Shuffles(shuffle)
    ensures r.Ok? && r.value.Some? ==> r.value.value.variable == c && r.value.value.model == ModelName
  {
    if c !in t.cols then Ok(None)
    else
      var data := DropMissing(t, c);
      if |data.rows| < MinRows then Ok(None)
      else
        match Labels(data, c)
        case Err(m) => Err(m)
        case Ok(y) =>
          var xs := FeatureMatrix(data, FeatureColumns(t));
          var p := shuffle(|data.rows|);
          var (xTrain, xTest) := ShuffleSplit(xs, p);
          var (yTrain, yTest) := ShuffleSplit(y, p);
          match model(xTrain, yTrain, xTest)
          case Err(m) => Err(m)
          case Ok(pred) =>
            match Score(yTest, pred, SkEps)
            case Err(m) => Err(m)
            case Ok(s) =>
              var r2 := R2(yTest, pred);
              Ok(Some(MetricRow(c, ModelName, round(sqrt(s.mse), 2), round(s.mae, 2),
                                if r2.Some? then Some(round(r2.value, 3)) else None)))
  }

  /** A target is skipped exactly when it is absent or has fewer than 100
      non-missing rows. Otherwise it scores exactly when its values are
      numbers and the regressor predicts every test row; with exact
      rounding the scores are those of the test values against the
      predictions, and R² is defined. */
  lemma TargetRowFacts(t: Table, c: string, model: XgboostUnivariate.Regressor, shuffle: nat -> seq<nat>,
                       sqrt: real -> real, round: (real, int) -> real)
    requires Shuffles(shuffle)
    ensures var r := TargetRow(t, c, model, shuffle, sqrt, round);
      var data := DropMissing(t, c);
      (r == Ok(None) <==> c !in t.cols || |data.rows| < MinRows) &&
      (c in t.cols && |data.rows| >= MinRows && Labels(data, c).Ok? ==>
        var y := Labels(data, c).value;
        var p := shuffle(|data.rows|);
        var xs := FeatureMatrix(data, FeatureColumns(t));
        var pred := model(ShuffleSplit(xs, p).0, ShuffleSplit(y, p).0, ShuffleSplit(xs, p).1);
        var yTest := ShuffleSplit(y, p).1;
        (r.Ok? <==> pred.Ok? && |pred.value| == TestCount(|data.rows|)) &&
        (r.Ok? && (forall x, d :: round(x, d) == x) ==>
          (r.value.value.mae == Mae(yTest, pred.value) && r.value.value.rmse == sqrt(Mse(yTest, pred.value)) &&
           r.value.value.r2 == R2(yTest, pred.value) && r.value.value.r2.Some?)))
  {
    var data := DropMissing(t, c);
    if c in t.cols && |data.rows| >= MinRows {
      SplitSizes(|data.rows|);
    }
  }

  // ----- the loop over the targets -----

  /** `metrics_summary` after the loop has run over `names`: skipped
      targets add nothing and any error ends the script. */
  function Gather(names: seq<string>, step: string -> Outcome<Option<MetricRow>>): (r: Outcome<seq<MetricRow>>)
    decreases |names|
  {
    if names == [] then Ok([])
    else
      match Gather(names[..|names| - 1], step)
      case Err(m) => Err(m)
      case Ok(rows) =>
        match step(names[|names| - 1])
        case Err(m) => Err(m)
        case Ok(None) => Ok(rows)
        case Ok(Some(row)) => Ok(rows + [row])
  }

  /** The names whose step yields a row, in order. */
  function Scored(names: seq<string>, step: string -> Outcome<Option<MetricRow>>): (ns: seq<string>)
    decreases |names|
  {
    if names == [] then []
    else
      var c := names[|names| - 1];
      Scored(names[..|names| - 1], step) + (if step(c).Ok? && step(c).value.Some? then [c] else [])
  }

  /** Every name's step succeeds. */
  predicate AllOk(names: seq<string>, step: string -> Outcome<Option<MetricRow>>) {
    forall j :: 0 <= j < |names| ==> step(names[j]).Ok?
  }

  lemma AllOkSnoc(names: seq<string>, c: string, step: string -> Outcome<Option<MetricRow>>)
    ensures AllOk(names + [c], step) <==> AllOk(names, step) && step(c).Ok?
  {
    assert forall j :: 0 <= j < |names| ==> (names + [c])[j] == names[j];
    assert (names + [c])[|names|] == c;
  }

  /** The loop completes exactly when no target's step fails. */
  lemma {:induction false} GatherOk(names: seq<string>, step: string -> Outcome<Option<MetricRow>>)
    ensures Gather(names, step).Ok? <==> AllOk(names, step)
    decreases |names|
  {
    if names != [] {
      var init := names[..|names| - 1];
      var c := names[|names| - 1];
      GatherOk(init, step);
      assert names == init + [c];
      AllOkSnoc(init, c, step);
    }
  }

  /** There is one row per scored name, in order, and it is that name's. */
  lemma {:induction false} GatherRows(names: seq<string>, step: string -> Outcome<Option<MetricRow>>)
    requires Gather(names, step).Ok?
    ensures var rows := Gather(names, step).value;
      var ns := Scored(names, step);
      |rows| == |ns| && forall j :: 0 <= j < |ns| ==> step(ns[j]) == Ok(Some(rows[j]))
    decreases |names|
  {
    if names != [] {
      GatherRows(names[..|names| - 1], step);
    }
  }

  /** A name is scored exactly when its step yields a row. */
  lemma {:induction false} ScoredMember(names: seq<string>, step: string -> Outcome<Option<MetricRow>>, c: string)
    ensures c in Scored(names, step) <==> c in names && step(c).Ok? && step(c).value.Some?
    decreases |names|
  {
    if names != [] {
      var init := names[..|names| - 1];
      ScoredMember(init, step, c);
      assert names == init + [names[|names| - 1]];
    }
  }

  /** `train_and_forecast` of one target as a function of its name. */
  function Step(t: Table, model: XgboostUnivariate.Regressor, shuffle: nat -> seq<nat>,
                sqrt: real -> real, round: (real, int) -> real): string -> Outcome<Option<MetricRow>>
    requires Shuffles(shuffle)
  {
    c => TargetRow(t, c, model, shuffle, sqrt, round)
  }

  // ----- the metrics file -----

  /** `pd.DataFrame(metrics_summary)`: the dictionaries' keys as columns;
      with no entry at all the frame has no columns either. */
  function MetricsTable(rows: seq<MetricRow>): (r: Table)
    ensures WellFormed(r) && |r.rows| == |rows|
    ensures rows != [] ==> r.cols == XgboostWeather.Header
  {
    if rows == [] then Table([], [])
    else Table(XgboostWeather.Header, seq(|rows|, i requires 0 <= i < |rows| => RowCells(rows[i])))
  }

  function RowCells(m: MetricRow): (cells: seq<Cell>)
    ensures |cells| == |XgboostWeather.Header|
  {
    [Text(m.variable), Text(m.model), Num(m.rmse), Num(m.mae), XgboostWeather.ScoreCell(m.r2)]
  }

  /** Each row reads back its entry under the column names. */
  lemma MetricsTableCells(rows: seq<MetricRow>, i: nat)
    requires i < |rows|
    ensures var r := MetricsTable(rows);
      Get(r, i, "Variable") == Text(rows[i].variable) && Get(r, i, "Model") == Text(rows[i].model) &&
      Get(r, i, "RMSE") == Num(rows[i].rmse) && Get(r, i, "MAE") == Num(rows[i].mae) &&
      Get(r, i, "R²") == XgboostWeather.ScoreCell(rows[i].r2)
  {
    CellAt(rows, i, 0);
    CellAt(rows, i, 1);
    CellAt(rows, i, 2);
    CellAt(rows, i, 3);
    CellAt(rows, i, 4);
    assert XgboostWeather.Header[0] == "Variable" && XgboostWeather.Header[1] == "Model" &&
      XgboostWeather.Header[2] == "RMSE" && XgboostWeather.Header[3] == "MAE" && XgboostWeather.Header[4] == "R²";
  }

  /** A cell of the table is the entry's cell at that name's position. */
  lemma CellAt(rows: seq<MetricRow>, i: nat, k: nat)
    requires i < |rows| && k < |XgboostWeather.Header|
    ensures Get(MetricsTable(rows), i, XgboostWeather.Header[k]) == RowCells(rows[i])[k]
  {
    XgboostWeather.HeaderAt(k);
  }

  // ----- the script -----

  /** The whole script: the summary file after the run. */
  function XgboostWeatherMulti(df: Table, parse: string -> Option<int>, model: XgboostUnivariate.Regressor,
                               shuffle: nat -> seq<nat>, sqrt: real -> real, round: (real, int) -> real,
                               existing: Option<Table>): Outcome<Table>
    requires WellFormed(df) && Shuffles(shuffle)
  {
    match ReadLenient(df, parse)
    case Err(m) => Err(m)
    case Ok(t) =>
      match Gather(Targets, Step(t, model, shuffle, sqrt, round))
      case Err(m) => Err(m)
      case Ok(rows) => Ok(Appended(existing, MetricsTable(rows)))
  }

  /** The script succeeds exactly when no target fails; the summary is then
      the existing rows followed by one row per target that has a column
      and at least 100 values, in order. */
  lemma XgboostWeatherMultiRows(df: Table, parse: string -> Option<int>, model: XgboostUnivariate.Regressor,
                                shuffle: nat -> seq<nat>, sqrt: real -> real, round: (real, int) -> real,
                                existing: Option<Table>)
    requires WellFormed(df) && Shuffles(shuffle) && ReadLenient(df, parse).Ok?
    ensures var t := ReadLenient(df, parse).value;
      var step := Step(t, model, shuffle, sqrt, round);
      var r := XgboostWeatherMulti(df, parse, model, shuffle, sqrt, round, existing);
      (r.Ok? <==> AllOk(Targets, step)) &&
      (r.Ok? ==>
        var ns := Scored(Targets, step);
        var n := if existing.Some? then |existing.value.rows| else 0;
        (|r.value.rows| == n + |ns|) &&
        (forall c :: c in ns <==> c in Targets && c in df.cols && |DropMissing(t, c).rows| >= MinRows) &&
        (forall j :: 0 <= j < |ns| ==> step(ns[j]).value.Some? && step(ns[j]).value.value.variable == ns[j]))
  {
    var t := ReadLenient(df, parse).value;
    var step := Step(t, model, shuffle, sqrt, round);
    GatherOk(Targets, step);
    if AllOk(Targets, step) {
      GatherRows(Targets, step);
      forall c ensures c in Scored(Targets, step) <==> c in Targets && c in df.cols && |DropMissing(t, c).rows| >= MinRows {
        ScoredMember(Targets, step, c);
        if c in Targets {
          var j :| 0 <= j < |Targets| && Targets[j] == c;
          assert step(Targets[j]).Ok?;
          TargetRowFacts(t, c, model, shuffle, sqrt, round);
        }
      }
    }
  }

  /** No row to add leaves the summary's rows as they were. */
  lemma NothingAppended(existing: Option<Table>, c: string)
    ensures var r := Appended(existing, MetricsTable([]));
      |r.rows| == (if existing.Some? then |existing.value.rows| else 0) &&
      (existing.Some? ==> forall i :: 0 <= i < |r.rows| ==> Get(r, i, c) == Get(existing.value, i, c))
  {
    AppendedRows(existing, MetricsTable([]), c);
  }

  /** The loop over the targets, with `continue` for the
      skipped ones. */
  method CollectRows(t: Table, names: seq<string>, model: XgboostUnivariate.Regressor, shuffle: nat -> seq<nat>,
                     sqrt: real -> real, round: (real, int) -> real) returns (r: Outcome<seq<MetricRow>>)
    requires Shuffles(shuffle)
    ensures r == Gather(names, Step(t, model, shuffle, sqrt, round))
  {
    var step := Step(t, model, shuffle, sqrt, round);
    var summary: seq<MetricRow> := [];
    for j := 0 to |names|
      invariant Gather(names[..j], step) == Ok(summary)
    {
      var c := names[j];
      assert names[..j + 1][..j] == names[..j];
      if c !in t.cols {
        continue;
      }
      var data := DropMissing(t, c);
      if |data.rows| < MinRows {
        continue;
      }
      var row := TargetRow(t, c, model, shuffle, sqrt, round);
      if row.Err? {
        r := Err(row.msg);
        GatherStaysErr(names, j + 1, step);
        return;
      }
      summary := summary + [row.value.value];
    }
    assert names[..|names|] == names;
    r := Ok(summary);
  }

  /** The whole script as run. */
  method RunXgboostWeatherMulti(df: Table, parse: string -> Option<int>, model: XgboostUnivariate.Regressor,
                                shuffle: nat -> seq<nat>, sqrt: real -> real, round: (real, int) -> real,
                                existing: Option<Table>) returns (r: Outcome<Table>)
    requires WellFormed(df) && Shuffles(shuffle)
    ensures r == XgboostWeatherMulti(df, parse, model, shuffle, sqrt, round, existing)
  {
    var read := ReadLenient(df, parse);
    if read.Err? {
      return Err(read.msg);
    }
    var rows := CollectRows(read.value, Targets, model, shuffle, sqrt, round);
    if rows.Err? {
      return Err(rows.msg);
    }
    r := Ok(Appended(existing, MetricsTable(rows.value)));
  }

  lemma {:induction false} GatherStaysErr(names: seq<string>, j: nat, step: string -> Outcome<Option<MetricRow>>)
    requires j <= |names| && Gather(names[..j], step).Err?
    ensures Gather(names, step) == Gather(names[..j], step)
    decreases |names| - j
  {
    if j < |names| {
      assert names[..j + 1][..j] == names[..j];
      GatherStaysErr(names, j + 1, step);
    } else {
      assert names[..j] == names;
    }
  }
}
