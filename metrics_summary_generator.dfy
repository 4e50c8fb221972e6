/** `metrics_summary_generator.py`: the three air-quality metric tables are
    repaired, labelled with their model, concatenated and cut down to the
    five summary columns. */
module MetricsSummaryGenerator {
  import opened Wrappers
  import opened Frames

  const IndexCol := "Unnamed: 0"
  const SummaryCols: seq<string> := ["Model", "Pollutant", "RMSE", "MAE", "MAPE"]

  /** The XGBoost table was saved with its index as an unnamed first
      column; when that column is there it is renamed 'Pollutant'. */
  function Repaired(t: Table): Table {
    if IndexCol in t.cols then Rename(t, map[IndexCol := "Pollutant"]) else t
  }

  /** Each table labelled, concatenated in the order Prophet, SARIMA,
      XGBoost, and the summary columns selected in order; selecting a column
      no table has is a KeyError. */
  function Summary(prophet: Table, sarima: Table, xgboost: Table): (r: Outcome<Table>)
    requires WellFormed(prophet) && WellFormed(sarima) && WellFormed(xgboost)
  {
    Select(Concatenated(prophet, sarima, xgboost), SummaryCols)
  }

  function Concatenated(prophet: Table, sarima: Table, xgboost: Table): Table
    requires WellFormed(prophet) && WellFormed(sarima) && WellFormed(xgboost)
  {
    Concat(Concat(SetConst(prophet, "Model", Text("Prophet")), SetConst(sarima, "Model", Text("SARIMA"))),
           SetConst(Repaired(xgboost), "Model", Text("XGBoost")))
  }

  /** The script, with the repair and the labels applied in place. */
  method GenerateSummary(prophet: Table, sarima: Table, xgboost: Table) returns (r: Outcome<Table>)
    requires WellFormed(prophet) && WellFormed(sarima) && WellFormed(xgboost)
    ensures r == Summary(prophet, sarima, xgboost)
  {
    var p := new FrameRef(prophet);
    var s := new FrameRef(sarima);
    var x := new FrameRef(xgboost);
    if IndexCol in x.table.cols {
      x.RenameColumns(map[IndexCol := "Pollutant"]);
    }
    p.SetColumn("Model", Text("Prophet"));
    s.SetColumn("Model", Text("SARIMA"));
    x.SetColumn("Model", Text("XGBoost"));
    var all := Concat(Concat(p.table, s.table), x.table);
    r := Select(all, SummaryCols);
  }

  /** The repair renames exactly the unnamed column: afterwards the values
      it held read back under 'Pollutant' when the table had no such column,
      and a table without it is left alone. */
  lemma RepairedMoves(t: Table, i: nat)
    requires WellFormed(t) && i < |t.rows|
    ensures IndexCol !in t.cols ==> Repaired(t) == t
    ensures IndexCol in t.cols && "Pollutant" !in t.cols ==> Get(Repaired(t), i, "Pollutant") == Get(t, i, IndexCol)
  {
    if IndexCol in t.cols && "Pollutant" !in t.cols {
      RenameMoves(t, IndexCol, "Pollutant", i);
    }
  }

  /** The summary succeeds exactly when the labelled tables together carry
      Pollutant, RMSE, MAE and MAPE; it then has exactly the five summary
      columns and one row per input row. */
  lemma SummaryShape(prophet: Table, sarima: Table, xgboost: Table)
    requires WellFormed(prophet) && WellFormed(sarima) && WellFormed(xgboost)
    ensures var r := Summary(prophet, sarima, xgboost);
      var x := Repaired(xgboost);
      (r.Ok? <==> forall n :: n in SummaryCols[1..] ==> n in prophet.cols || n in sarima.cols || n in x.cols) &&
      (r.Ok? ==> r.value.cols == SummaryCols && |r.value.rows| == |prophet.rows| + |sarima.rows| + |xgboost.rows|)
  {
    var p := SetConst(prophet, "Model", Text("Prophet"));
    var s := SetConst(sarima, "Model", Text("SARIMA"));
    var x := SetConst(Repaired(xgboost), "Model", Text("XGBoost"));
    ConcatCols(p, s);
    ConcatCols(Concat(p, s), x);
    assert forall n :: n in SummaryCols <==> n == "Model" || n in SummaryCols[1..];
  }

  /** A labelled table reads its tag under Model and its own values
      elsewhere. */
  lemma Labelled(t: Table, tag: string, i: nat, c: string)
    requires WellFormed(t) && i < |t.rows| && c != "Model"
    ensures Get(SetConst(t, "Model", Text(tag)), i, "Model") == Text(tag)
    ensures Get(SetConst(t, "Model", Text(tag)), i, c) == Get(t, i, c)
  {
    SetConstKeepsOthers(t, "Model", Text(tag), i, c);
  }

  /** Under any name, row i of a two-table concatenation reads the row it
      came from. */
  lemma ConcatRead(a: Table, b: Table, i: nat, c: string)
    requires i < |a.rows| + |b.rows|
    ensures Get(Concat(a, b), i, c) == if i < |a.rows| then Get(a, i, c) else Get(b, i - |a.rows|, c)
  {
    if i < |a.rows| {
      ConcatLeftRows(a, b, i, c);
    } else {
      ConcatRightRows(a, b, i - |a.rows|, c);
    }
  }

  /** In a successful summary the rows are the Prophet rows, then the SARIMA
      rows, then the XGBoost rows, each labelled with its model and holding
      its source row's values. */
  lemma SummaryRow(prophet: Table, sarima: Table, xgboost: Table, c: string, i: nat)
    requires WellFormed(prophet) && WellFormed(sarima) && WellFormed(xgboost)
    requires c in SummaryCols && c != "Model"
    requires Summary(prophet, sarima, xgboost).Ok?
    requires i < |prophet.rows| + |sarima.rows| + |xgboost.rows|
    ensures var r := Summary(prophet, sarima, xgboost).value;
      var np := |prophet.rows|;
      var ns := |sarima.rows|;
      (i < np ==> Get(r, i, "Model") == Text("Prophet") && Get(r, i, c) == Get(prophet, i, c)) &&
      (np <= i < np + ns ==> Get(r, i, "Model") == Text("SARIMA") && Get(r, i, c) == Get(sarima, i - np, c)) &&
      (np + ns <= i ==> Get(r, i, "Model") == Text("XGBoost") && Get(r, i, c) == Get(Repaired(xgboost), i - np - ns, c))
  {
    var x0 := Repaired(xgboost);
    var p := SetConst(prophet, "Model", Text("Prophet"));
    var s := SetConst(sarima, "Model", Text("SARIMA"));
    var x := SetConst(x0, "Model", Text("XGBoost"));
    var ps := Concat(p, s);
    var all := Concat(ps, x);
    assert all == Concatenated(prophet, sarima, xgboost);
    var np := |prophet.rows|;
    var ns := |sarima.rows|;
    SelectValues(all, SummaryCols, i, "Model");
    SelectValues(all, SummaryCols, i, c);
    ConcatRead(ps, x, i, "Model");
    ConcatRead(ps, x, i, c);
    if i < np + ns {
      ConcatRead(p, s, i, "Model");
      ConcatRead(p, s, i, c);
      if i < np {
        Labelled(prophet, "Prophet", i, c);
      } else {
        Labelled(sarima, "SARIMA", i - np, c);
      }
    } else {
      Labelled(x0, "XGBoost", i - np - ns, c);
    }
  }
}
