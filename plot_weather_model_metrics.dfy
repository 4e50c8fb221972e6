/** The reshaping step of backend/weather_data_files/plot_weather_model_metrics.py,
    before any chart is drawn: the consolidated weather metrics table, one row per
    variable with one column per (metric, model), is cleaned and melted
    into a long table of (Pollutant, Model, Value, Metric) rows, one block
    per metric. The bar charts drawn from it are not part of this model. */
module PlotWeatherModelMetrics {
  import opened Wrappers
  import opened Frames
  import opened PySeq

  // ----- cleaning the header -----

  /** `col.replace("R²", "R2")` */
  function AsciiName(c: string): string {
    ReplaceAll(c, "R²", "R2")
  }

  /** The header clean-up: drop MAPE and Model when present, then rename every
      column with its "R²" written "R2". */
  function Cleaned(df: Table): (r: Table)
    ensures |r.rows| == |df.rows|
  {
    var d := Drop(df, {"MAPE", "Model"});
    Table(seq(|d.cols|, k requires 0 <= k < |d.cols| => AsciiName(d.cols[k])), d.rows)
  }

  /** After cleaning, MAPE and Model are gone, no header holds "R²", every
      header is the cleaned form of a kept one, and the rows are the kept
      columns' cells in place. */
  lemma CleanedHeader(df: Table)
    ensures var d := Drop(df, {"MAPE", "Model"});
      var r := Cleaned(df);
      "MAPE" !in d.cols && "Model" !in d.cols && r.rows == d.rows && |r.cols| == |d.cols| &&
      forall k :: 0 <= k < |r.cols| ==> r.cols[k] == AsciiName(d.cols[k]) && !Contains(r.cols[k], "R²")
  {
    var d := Drop(df, {"MAPE", "Model"});
    var r := Cleaned(df);
    forall k | 0 <= k < |r.cols| ensures !Contains(r.cols[k], "R²") {
      assert "R²" == ['R', '²'];
      ReplaceRemoves(d.cols[k], 'R', '²', "R2");
    }
  }

  /** A header without "R²" keeps its name. */
  lemma AsciiNameKeeps(c: string)
    requires !Contains(c, "R²")
    ensures AsciiName(c) == c
  {
    ReplaceAbsent(c, "R²", "R2");
  }

  // ----- melting one metric -----

  datatype LongRow = LongRow(pollutant: Cell, model: string, value: Cell, metric: string)

  /** `[col for col in df.columns if col.startswith(metric)]` */
  function MetricCols(cols: seq<string>, metric: string): (r: seq<string>)
    ensures forall c :: c in r <==> c in cols && StartsWith(c, metric)
    ensures |r| <= |cols|
  {
    if cols == [] then []
    else
      assert forall c :: c in cols <==> c == cols[0] || c in cols[1..];
      (if StartsWith(cols[0], metric) then [cols[0]] else []) + MetricCols(cols[1..], metric)
  }

  /** The model label: the column name with every `metric_` removed. */
  function ModelLabel(c: string, metric: string): string {
    ReplaceAll(c, metric + "_", "")
  }

  /** A name `metric_rest` whose rest holds no further `metric_` is labelled
      with the rest. */
  lemma ModelLabelOfPrefixed(metric: string, rest: string)
    requires !Contains(rest, metric + "_")
    ensures ModelLabel(metric + "_" + rest, metric) == rest
  {
    var p := metric + "_";
    var s := p + rest;
    assert s[..|p|] == p && s[|p|..] == rest;
    ReplaceAbsent(rest, p, "");
  }

  /** The melted rows of one column: one per row, in row order. */
  function MeltCol(t: Table, c: string, metric: string): (r: seq<LongRow>)
    ensures |r| == |t.rows|
  {
    seq(|t.rows|, i requires 0 <= i < |t.rows| =>
      LongRow(Get(t, i, "Pollutant"), ModelLabel(c, metric), Get(t, i, c), metric))
  }

  /** `melt(id_vars="Pollutant")` over the value columns: the blocks of the
      columns in order, each holding every row. */
  function MeltCols(t: Table, cols: seq<string>, metric: string): seq<LongRow>
    decreases |cols|
  {
    if cols == [] then [] else MeltCol(t, cols[0], metric) + MeltCols(t, cols[1..], metric)
  }

  /** The melt has (rows x columns) entries. */
  lemma {:induction false} MeltColsLength(t: Table, cols: seq<string>, metric: string)
    ensures |MeltCols(t, cols, metric)| == |cols| * |t.rows|
    decreases |cols|
  {
    if cols != [] {
      MeltColsLength(t, cols[1..], metric);
      Distributes(|cols|, |t.rows|);
    }
  }

  /** Entry c * n + i of the melt is row i of column c. */
  lemma {:induction false} MeltColsAt(t: Table, cols: seq<string>, metric: string, c: nat, i: nat)
    requires c < |cols| && i < |t.rows|
    ensures c * |t.rows| + i < |MeltCols(t, cols, metric)|
    ensures MeltCols(t, cols, metric)[c * |t.rows| + i] ==
      LongRow(Get(t, i, "Pollutant"), ModelLabel(cols[c], metric), Get(t, i, cols[c]), metric)
    decreases c
  {
    var n := |t.rows|;
    var head := MeltCol(t, cols[0], metric);
    var rest := MeltCols(t, cols[1..], metric);
    assert MeltCols(t, cols, metric) == head + rest;
    if c > 0 {
      MeltColsAt(t, cols[1..], metric, c - 1, i);
      Distributes(c, n);
      assert cols[1..][c - 1] == cols[c];
    }
  }

  lemma Distributes(c: int, n: int)
    ensures c * n == (c - 1) * n + n
  {
  }

  /** One turn of the melting loop, for one metric: the matching columns next to Pollutant,
      melted and labelled. Without a Pollutant column the selection raises
      KeyError. */
  function Block(t: Table, metric: string): (r: Outcome<seq<LongRow>>)
    ensures r.Ok? <==> "Pollutant" in t.cols
  {
    var cols := MetricCols(t.cols, metric);
    match Select(t, ["Pollutant"] + cols)
    case Err(m) => Err(m)
    case Ok(temp) => Ok(MeltCols(temp, cols, metric))
  }

  /** One block is the melt of the original table's matching columns, in
      header order; with MeltColsLength and MeltColsAt, entry c * n + i is
      row i of the c-th matching column, labelled with its model and the
      metric. */
  lemma BlockFacts(t: Table, metric: string)
    requires "Pollutant" in t.cols
    ensures Block(t, metric) == Ok(MeltCols(t, MetricCols(t.cols, metric), metric))
  {
    var cols := MetricCols(t.cols, metric);
    var names := ["Pollutant"] + cols;
    var temp := Select(t, names).value;
    forall i, c | 0 <= i < |t.rows| && c in names ensures Get(temp, i, c) == Get(t, i, c) {
      SelectValues(t, names, i, c);
    }
    MeltColsSame(temp, t, cols, metric);
  }

  /** Two tables that agree on Pollutant and on the melted columns melt alike. */
  lemma {:induction false} MeltColsSame(u: Table, t: Table, cols: seq<string>, metric: string)
    requires |u.rows| == |t.rows|
    requires forall i, c :: 0 <= i < |t.rows| && c in ["Pollutant"] + cols ==> Get(u, i, c) == Get(t, i, c)
    ensures MeltCols(u, cols, metric) == MeltCols(t, cols, metric)
    decreases |cols|
  {
    if cols != [] {
      assert forall c :: c in ["Pollutant"] + cols[1..] ==> c in ["Pollutant"] + cols;
      MeltColsSame(u, t, cols[1..], metric);
      assert "Pollutant" in ["Pollutant"] + cols && cols[0] in ["Pollutant"] + cols;
      assert MeltCol(u, cols[0], metric) == MeltCol(t, cols[0], metric);
    }
  }

  // ----- the loop over metrics -----

  const Metrics: seq<string> := ["RMSE", "MAE", "R2"]

  /** `df_long` after the loop has run over the given metrics. */
  function LongAll(t: Table, metrics: seq<string>): (r: Outcome<seq<LongRow>>)
    decreases |metrics|
  {
    if metrics == [] then Ok([])
    else
      match LongAll(t, metrics[..|metrics| - 1])
      case Err(m) => Err(m)
      case Ok(acc) =>
        match Block(t, metrics[|metrics| - 1])
        case Err(m) => Err(m)
        case Ok(b) => Ok(acc + b)
  }

  /** The long table is the RMSE block, then the MAE block, then the R2
      block; it fails exactly when the table has no Pollutant. */
  lemma LongTable(t: Table)
    ensures (LongAll(t, Metrics).Ok? <==> "Pollutant" in t.cols) &&
      (LongAll(t, Metrics).Ok? ==>
        LongAll(t, Metrics).value == Block(t, "RMSE").value + Block(t, "MAE").value + Block(t, "R2").value)
  {
    LongOfThree(t, "RMSE", "MAE", "R2");
  }

  lemma LongOfThree(t: Table, a: string, b: string, c: string)
    ensures (LongAll(t, [a, b, c]).Ok? <==> "Pollutant" in t.cols) &&
      (LongAll(t, [a, b, c]).Ok? ==>
        LongAll(t, [a, b, c]).value == Block(t, a).value + Block(t, b).value + Block(t, c).value)
  {
    var s0: seq<string> := [];
    var s1 := s0 + [a];
    var s2 := s1 + [b];
    var s3 := s2 + [c];
    assert LongAll(t, s0) == Ok([]);
    LongAllSnoc(t, s0, a);
    LongAllSnoc(t, s1, b);
    LongAllSnoc(t, s2, c);
    if "Pollutant" in t.cols {
      var ba, bb, bc := Block(t, a).value, Block(t, b).value, Block(t, c).value;
      assert [] + ba == ba;
      assert LongAll(t, s1) == Ok(ba);
      assert LongAll(t, s2) == Ok(ba + bb);
      assert LongAll(t, s3) == Ok(ba + bb + bc);
    } else {
      assert LongAll(t, s1).Err?;
      assert LongAll(t, s2).Err?;
      assert LongAll(t, s3).Err?;
    }
    assert s3 == [a, b, c];
  }

  /** One more metric appends its block, or fails. */
  lemma LongAllSnoc(t: Table, ms: seq<string>, m: string)
    ensures LongAll(t, ms + [m]) ==
      if LongAll(t, ms).Err? then LongAll(t, ms)
      else if Block(t, m).Err? then Block(t, m)
      else Ok(LongAll(t, ms).value + Block(t, m).value)
  {
    assert (ms + [m])[..|ms|] == ms;
  }

  /** The reshaping step: clean the header, then grow `df_long` one metric at a time. */
  method ToLong(df: Table) returns (r: Outcome<seq<LongRow>>)
    ensures r == LongAll(Cleaned(df), Metrics)
  {
    var t := Cleaned(df);
    r := MeltMetrics(t);
  }

  /** The loop that melts RMSE, MAE and R2 in turn into `df_long`. */
  method MeltMetrics(t: Table) returns (r: Outcome<seq<LongRow>>)
    ensures r == LongAll(t, Metrics)
  {
    var long: seq<LongRow> := [];
    for j := 0 to |Metrics|
      invariant LongAll(t, Metrics[..j]) == Ok(long)
    {
      assert Metrics[..j + 1][..j] == Metrics[..j];
      var b := Block(t, Metrics[j]);
      if b.Err? {
        r := Err(b.msg);
        ErrStays(t, Metrics, j + 1);
        assert Metrics[..|Metrics|] == Metrics;
        return;
      }
      long := long + b.value;
    }
    assert Metrics[..|Metrics|] == Metrics;
    r := Ok(long);
  }

  /** Once the loop fails it stays failed with the same message. */
  lemma {:induction false} ErrStays(t: Table, metrics: seq<string>, j: nat)
    requires j <= |metrics| && LongAll(t, metrics[..j]).Err?
    ensures LongAll(t, metrics) == LongAll(t, metrics[..j])
    decreases |metrics| - j
  {
    if j < |metrics| {
      assert metrics[..j + 1][..j] == metrics[..j];
      ErrStays(t, metrics, j + 1);
    } else {
      assert metrics[..j] == metrics;
    }
  }
}
