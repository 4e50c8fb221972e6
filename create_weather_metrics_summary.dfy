/** `create_weather_metrics_summary.py`: the four weather metric tables
    (Prophet, SARIMA, univariate XGBoost, multivariate XGBoost) keyed by
    Pollutant, de-duplicated and joined side by side with model suffixes. */
module CreateWeatherMetricsSummary {
  import opened Wrappers
  import opened Frames

  const Key := "Pollutant"
  const Standardize := map["Variable" := Key]
  const XgbRenames := map["RMSE" := "RMSE_XGBoost", "MAE" := "MAE_XGBoost", "R²" := "R2_XGBoost"]
  const MultiRenames := map["RMSE" := "RMSE_XGBMulti", "MAE" := "MAE_XGBMulti", "R²" := "R2_XGBMulti"]
  const ModelCols := {"Model_Prophet", "Model_SARIMA", "Model"}

  /** `drop_duplicates(subset=["Pollutant"])` on a table without that column. */
  const NoKey := "KeyError: Index(['Pollutant'], dtype='object')"

  /** A table after `rename(columns={"Variable": "Pollutant"})`. */
  function Standardized(t: Table): Table {
    Rename(t, Standardize)
  }

  /** The whole script: every table renamed and de-duplicated on Pollutant
      (KeyError when one has no Pollutant column), then the three inner
      merges with the renames and the drop between them. */
  function Summary(prophet: Table, sarima: Table, xgboost: Table, multi: Table): Outcome<Table> {
    var p := Standardized(prophet);
    var s := Standardized(sarima);
    var x := Standardized(xgboost);
    var m := Standardized(multi);
    if Key !in p.cols || Key !in s.cols || Key !in x.cols || Key !in m.cols then Err(NoKey)
    else Final(Prepared(prophet), Prepared(sarima), Prepared(xgboost), Prepared(multi))
  }

  /** A table renamed and de-duplicated on Pollutant, keeping the first row. */
  function Prepared(t: Table): Table {
    DedupFirst(Standardized(t), Key)
  }

  /** The merges, renames and drop on the prepared tables. */
  function Final(prophet: Table, sarima: Table, xgboost: Table, multi: Table): Outcome<Table> {
    match Joined(prophet, sarima, xgboost)
    case Err(e) => Err(e)
    case Ok(merged) =>
      match Merge(Tidy(merged), multi, Key, "", "_XGBMulti")
      case Err(e) => Err(e)
      case Ok(fin) => Ok(Rename(fin, MultiRenames))
  }

  /** `merged_all` before its renames: Prophet and SARIMA merged with their
      suffixes, then the univariate XGBoost table with pandas' default
      suffixes. */
  function Joined(prophet: Table, sarima: Table, xgboost: Table): Outcome<Table> {
    match Merge(prophet, sarima, Key, "_Prophet", "_SARIMA")
    case Err(e) => Err(e)
    case Ok(ps) => Merge(ps, xgboost, Key, "_x", "_y")
  }

  /** The XGBoost metric columns renamed and the Model columns dropped. */
  function Tidy(t: Table): Table {
    Drop(Rename(t, XgbRenames), ModelCols)
  }

  /** The script, each table updated in place as it goes. */
  method CreateSummary(prophet: Table, sarima: Table, xgboost: Table, multi: Table) returns (r: Outcome<Table>)
    ensures r == Summary(prophet, sarima, xgboost, multi)
  {
    var p := new FrameRef(prophet);
    var s := new FrameRef(sarima);
    var x := new FrameRef(xgboost);
    var m := new FrameRef(multi);
    p.RenameColumns(Standardize);
    s.RenameColumns(Standardize);
    x.RenameColumns(Standardize);
    m.RenameColumns(Standardize);
    if Key !in p.table.cols || Key !in s.table.cols || Key !in x.table.cols || Key !in m.table.cols {
      return Err(NoKey);
    }
    p.DropDuplicates(Key);
    s.DropDuplicates(Key);
    x.DropDuplicates(Key);
    m.DropDuplicates(Key);
    r := MergeAll(p.table, s.table, x.table, m.table);
  }

  /** The three merges on the prepared tables, with `merged_all`
      renamed and its Model columns dropped in place. */
  method MergeAll(prophet: Table, sarima: Table, xgboost: Table, multi: Table) returns (r: Outcome<Table>)
    ensures r == Final(prophet, sarima, xgboost, multi)
  {
    var ps := Merge(prophet, sarima, Key, "_Prophet", "_SARIMA");
    if ps.Err? {
      return Err(ps.msg);
    }
    var merged := Merge(ps.value, xgboost, Key, "_x", "_y");
    if merged.Err? {
      return Err(merged.msg);
    }
    var all := new FrameRef(merged.value);
    all.RenameColumns(XgbRenames);
    all.DropColumns(ModelCols);
    var fin := Merge(all.table, multi, Key, "", "_XGBMulti");
    if fin.Err? {
      return Err(fin.msg);
    }
    var final := new FrameRef(fin.value);
    final.RenameColumns(MultiRenames);
    r := Ok(final.table);
  }

  /** Renaming Variable moves its values under Pollutant: when a table has a
      Variable column and no Pollutant column, its standardized keys are the
      former Variable values. */
  lemma StandardizedKeys(t: Table)
    requires WellFormed(t) && "Variable" in t.cols && Key !in t.cols
    ensures Key in Standardized(t).cols
    ensures KeySet(Standardized(t), Key) == KeySet(t, "Variable")
  {
    var st := Standardized(t);
    assert st.cols[Find(t.cols, "Variable")] == Key;
    forall i | 0 <= i < |t.rows| ensures Get(st, i, Key) == Get(t, i, "Variable") {
      RenameMoves(t, "Variable", Key, i);
    }
  }

  /** The suffixes of the first two merges cannot produce the key's name. */
  lemma SuffixesSafe(cols: seq<string>)
    ensures SuffixSafe(cols, Key, "_Prophet")
    ensures SuffixSafe(cols, Key, "_x")
    ensures SuffixSafe(cols, Key, "")
  {
    forall c | c in cols && c != Key ensures c + "_Prophet" != Key && c + "_x" != Key {
      SuffixChar(c, "_Prophet", 0);
      SuffixChar(c, "_x", 1);
    }
  }

  /** The k-th character of a suffix sits k places after the stem. */
  lemma SuffixChar(c: string, sfx: string, k: nat)
    requires k < |sfx|
    ensures |c + sfx| == |c| + |sfx| && (c + sfx)[|c| + k] == sfx[k]
  {
  }

  /** The script fails exactly when some table, after the rename, has no
      Pollutant column; in the model it never fails in the merges. pandas 2
      also raises MergeError when the suffixes produce a duplicate column
      label, which cannot happen on the headers the model scripts write
      (SummaryHeader) and falls under the duplicate-label item of the
      README's "Left out" list. */
  lemma SummaryFails(prophet: Table, sarima: Table, xgboost: Table, multi: Table)
    requires WellFormed(prophet) && WellFormed(sarima) && WellFormed(xgboost) && WellFormed(multi)
    ensures Summary(prophet, sarima, xgboost, multi).Err? <==>
      Key !in Standardized(prophet).cols || Key !in Standardized(sarima).cols ||
      Key !in Standardized(xgboost).cols || Key !in Standardized(multi).cols
    ensures Summary(prophet, sarima, xgboost, multi).Err? ==> Summary(prophet, sarima, xgboost, multi).msg == NoKey
  {
    var p := Standardized(prophet);
    var s := Standardized(sarima);
    var x := Standardized(xgboost);
    var m := Standardized(multi);
    if Key in p.cols && Key in s.cols && Key in x.cols && Key in m.cols {
      MergedKeys(prophet, sarima, xgboost, multi);
    }
  }

  /** The final table holds exactly the pollutants that all four tables
      have, each once. */
  lemma SummaryKeys(prophet: Table, sarima: Table, xgboost: Table, multi: Table)
    requires WellFormed(prophet) && WellFormed(sarima) && WellFormed(xgboost) && WellFormed(multi)
    requires Summary(prophet, sarima, xgboost, multi).Ok?
    ensures var r := Summary(prophet, sarima, xgboost, multi).value;
      KeySet(r, Key) ==
        KeySet(Standardized(prophet), Key) * KeySet(Standardized(sarima), Key) *
        KeySet(Standardized(xgboost), Key) * KeySet(Standardized(multi), Key) &&
      UniqueKeys(r, Key)
  {
    MergedKeys(prophet, sarima, xgboost, multi);
  }

  /** Every merge step succeeds once each table has the key, and each keeps
      the keys the inputs share, once each. */
  lemma MergedKeys(prophet: Table, sarima: Table, xgboost: Table, multi: Table)
    requires WellFormed(prophet) && WellFormed(sarima) && WellFormed(xgboost) && WellFormed(multi)
    requires Key in Standardized(prophet).cols && Key in Standardized(sarima).cols
    requires Key in Standardized(xgboost).cols && Key in Standardized(multi).cols
    ensures Summary(prophet, sarima, xgboost, multi).Ok?
    ensures var r := Summary(prophet, sarima, xgboost, multi).value;
      KeySet(r, Key) ==
        KeySet(Standardized(prophet), Key) * KeySet(Standardized(sarima), Key) *
        KeySet(Standardized(xgboost), Key) * KeySet(Standardized(multi), Key) &&
      UniqueKeys(r, Key)
  {
    PreparedKeys(prophet);
    PreparedKeys(sarima);
    PreparedKeys(xgboost);
    PreparedKeys(multi);
    FinalKeys(Prepared(prophet), Prepared(sarima), Prepared(xgboost), Prepared(multi));
  }

  lemma FinalKeys(p: Table, s: Table, x: Table, m: Table)
    requires WellFormed(p) && WellFormed(s) && WellFormed(x) && WellFormed(m)
    requires Key in p.cols && Key in s.cols && Key in x.cols && Key in m.cols
    requires UniqueKeys(p, Key) && UniqueKeys(s, Key) && UniqueKeys(x, Key) && UniqueKeys(m, Key)
    ensures Final(p, s, x, m).Ok?
    ensures var r := Final(p, s, x, m).value;
      UniqueKeys(r, Key) && KeySet(r, Key) == KeySet(p, Key) * KeySet(s, Key) * KeySet(x, Key) * KeySet(m, Key)
  {
    JoinedKeys(p, s, x);
    var merged := Joined(p, s, x).value;
    LastMerge(merged, m);
  }

  /** The multivariate merge and its renames on the tidied `merged_all`. */
  lemma LastMerge(merged: Table, m: Table)
    requires Key in merged.cols && UniqueKeys(merged, Key)
    requires WellFormed(m) && Key in m.cols && UniqueKeys(m, Key)
    ensures Merge(Tidy(merged), m, Key, "", "_XGBMulti").Ok?
    ensures var r := Rename(Merge(Tidy(merged), m, Key, "", "_XGBMulti").value, MultiRenames);
      UniqueKeys(r, Key) && KeySet(r, Key) == KeySet(merged, Key) * KeySet(m, Key)
  {
    TidyMerge(merged, m);
    var fin := Merge(Tidy(merged), m, Key, "", "_XGBMulti").value;
    RenamesSafe();
    RenameKeepsKey(fin, MultiRenames, Key);
  }

  /** Neither set of metric renames touches Pollutant. */
  lemma RenamesSafe()
    ensures Key !in XgbRenames && forall x :: x in XgbRenames ==> XgbRenames[x] != Key
    ensures Key !in MultiRenames && forall x :: x in MultiRenames ==> MultiRenames[x] != Key
  {
  }

  lemma TidyMerge(merged: Table, m: Table)
    requires Key in merged.cols && UniqueKeys(merged, Key)
    requires WellFormed(m) && Key in m.cols && UniqueKeys(m, Key)
    ensures Merge(Tidy(merged), m, Key, "", "_XGBMulti").Ok?
    ensures var r := Merge(Tidy(merged), m, Key, "", "_XGBMulti").value;
      UniqueKeys(r, Key) && KeySet(r, Key) == KeySet(merged, Key) * KeySet(m, Key)
  {
    Tidied(merged);
    MergeStep(Tidy(merged), m, "", "_XGBMulti");
  }

  lemma JoinedKeys(p: Table, s: Table, x: Table)
    requires WellFormed(p) && WellFormed(s) && WellFormed(x)
    requires Key in p.cols && Key in s.cols && Key in x.cols
    requires UniqueKeys(p, Key) && UniqueKeys(s, Key) && UniqueKeys(x, Key)
    ensures Joined(p, s, x).Ok?
    ensures var j := Joined(p, s, x).value;
      Key in j.cols && UniqueKeys(j, Key) && KeySet(j, Key) == KeySet(p, Key) * KeySet(s, Key) * KeySet(x, Key)
  {
    MergeStep(p, s, "_Prophet", "_SARIMA");
    var ps := Merge(p, s, Key, "_Prophet", "_SARIMA").value;
    MergeStep(ps, x, "_x", "_y");
  }

  /** One of the script's merges on Pollutant, of two tables with unique keys. */
  lemma MergeStep(l: Table, r: Table, sl: string, sr: string)
    requires sl == "_Prophet" || sl == "_x" || sl == ""
    requires WellFormed(l) && Key in l.cols && Key in r.cols && UniqueKeys(l, Key) && UniqueKeys(r, Key)
    ensures Merge(l, r, Key, sl, sr).Ok?
    ensures var m := Merge(l, r, Key, sl, sr).value;
      WellFormed(m) && Key in m.cols && UniqueKeys(m, Key) && KeySet(m, Key) == KeySet(l, Key) * KeySet(r, Key)
  {
    SuffixesSafe(l.cols);
    MergeKeys(l, r, Key, sl, sr);
    MergeWellFormed(l, r, Key, sl, sr);
  }

  /** The renames to *_XGBoost and the drop of the Model columns keep the
      key column. */
  lemma Tidied(t: Table)
    requires Key in t.cols && UniqueKeys(t, Key)
    ensures var all := Tidy(t);
      WellFormed(all) && Key in all.cols && UniqueKeys(all, Key) && KeySet(all, Key) == KeySet(t, Key)
  {
    RenameKeepsKey(t, XgbRenames, Key);
    DropKeepsKey(Rename(t, XgbRenames), ModelCols, Key);
  }

  /** A standardized, de-duplicated table is well formed, has unique keys
      and the keys of the standardized table. */
  lemma PreparedKeys(t: Table)
    requires WellFormed(t)
    ensures var d := Prepared(t);
      WellFormed(d) && d.cols == Standardized(t).cols && UniqueKeys(d, Key) && KeySet(d, Key) == KeySet(Standardized(t), Key)
  {
    DedupWellFormed(Standardized(t), Key);
    DedupFirstUnique(Standardized(t), Key);
  }

  // ----- the headers the weather forecasters write -----

  const ProphetHeader: seq<string> := ["Variable", "Model", "RMSE", "MAE", "MAPE"]
  const SarimaHeader: seq<string> := ["Variable", "Model", "RMSE", "MAE"]
  const XgbHeader: seq<string> := ["Variable", "Model", "RMSE", "MAE", "R²"]

  const ProphetStd: seq<string> := ["Pollutant", "Model", "RMSE", "MAE", "MAPE"]
  const SarimaStd: seq<string> := ["Pollutant", "Model", "RMSE", "MAE"]
  const XgbStd: seq<string> := ["Pollutant", "Model", "RMSE", "MAE", "R²"]

  const Merged1: seq<string> :=
    ["Pollutant", "Model" + "_Prophet", "RMSE" + "_Prophet", "MAE" + "_Prophet", "MAPE",
     "Model" + "_SARIMA", "RMSE" + "_SARIMA", "MAE" + "_SARIMA"]
  const XgbAdded: seq<string> := ["Model", "RMSE", "MAE", "R²"]
  const XgbRenamed: seq<string> := ["Model", "RMSE_XGBoost", "MAE_XGBoost", "R2_XGBoost"]
  const TidyHeader: seq<string> :=
    ["Pollutant", "RMSE" + "_Prophet", "MAE" + "_Prophet", "MAPE", "RMSE" + "_SARIMA", "MAE" + "_SARIMA",
     "RMSE_XGBoost", "MAE_XGBoost", "R2_XGBoost"]
  const FinalHeader: seq<string> := TidyHeader + ["Model", "RMSE_XGBMulti", "MAE_XGBMulti", "R2_XGBMulti"]

  lemma StandardHeaders()
    ensures RenameCols(ProphetHeader, Standardize) == ProphetStd
    ensures RenameCols(SarimaHeader, Standardize) == SarimaStd
    ensures RenameCols(XgbHeader, Standardize) == XgbStd
  {
  }

  lemma SarimaKeep()
    ensures RightKeep(SarimaStd, Key) == [1, 2, 3]
  {
    KeepFromAll(SarimaStd, {Key}, 1);
  }

  lemma FirstMergeLeft()
    ensures LeftCols(ProphetStd, SarimaStd, Key, "_Prophet") == Merged1[..5]
  {
    var left := LeftCols(ProphetStd, SarimaStd, Key, "_Prophet");
    assert left[0] == Merged1[0] by { }
    assert left[1] == Merged1[1] by { assert SarimaStd[1] == "Model"; }
    assert left[2] == Merged1[2] by { assert SarimaStd[2] == "RMSE"; }
    assert left[3] == Merged1[3] by { assert SarimaStd[3] == "MAE"; }
    assert left[4] == Merged1[4] by { assert "MAPE" !in SarimaStd; }
  }

  lemma FirstMergeRight()
    ensures RightCols(ProphetStd, SarimaStd, Key, "_SARIMA") == Merged1[5..]
  {
    SarimaKeep();
  }

  lemma FirstMergeHeader()
    ensures MergeCols(ProphetStd, SarimaStd, Key, "_Prophet", "_SARIMA") == Merged1
  {
    FirstMergeLeft();
    FirstMergeRight();
  }

  /** Apart from the key, the names of the first merge are longer than
      any the XGBoost table has, or are MAPE. */
  lemma Merged1Long()
    ensures forall k :: 0 <= k < |Merged1| ==> Merged1[k] == Key || Merged1[k] == "MAPE" || |Merged1[k]| > 9
  {
  }

  lemma XgbShort()
    ensures forall j :: 0 <= j < |XgbStd| ==> XgbStd[j] == Key || (|XgbStd[j]| <= 5 && XgbStd[j] != "MAPE")
  {
  }

  lemma SecondDisjoint()
    ensures forall k :: 0 <= k < |Merged1| && Merged1[k] != Key ==> Merged1[k] !in XgbStd
    ensures forall j :: 0 <= j < |XgbStd| && XgbStd[j] != Key ==> XgbStd[j] !in Merged1
  {
    Merged1Long();
    XgbShort();
  }

  lemma XgbWithoutKey()
    ensures Without(XgbStd, {Key}) == XgbAdded
  {
    assert XgbStd == [Key] + XgbAdded;
    WithoutConcat([Key], XgbAdded, {Key});
    WithoutKept(XgbAdded, {Key});
  }

  lemma SecondMergeHeader()
    ensures MergeCols(Merged1, XgbStd, Key, "_x", "_y") == Merged1 + XgbAdded
  {
    SecondDisjoint();
    XgbWithoutKey();
    MergeColsDisjoint(Merged1, XgbStd, Key, "_x", "_y");
  }

  lemma SecondRenameHeader()
    ensures RenameCols(Merged1 + XgbAdded, XgbRenames) == Merged1 + XgbRenamed
  {
    RenameConcat(Merged1, XgbAdded, XgbRenames);
    Merged1Long();
    RenameAbsent(Merged1, XgbRenames);
  }

  /** The Model columns named by the drop are the ones the merges made. */
  lemma ModelSuffixes()
    ensures "Model" + "_Prophet" == "Model_Prophet" && "Model" + "_SARIMA" == "Model_SARIMA"
  {
  }

  /** The names kept by the drop, piece by piece. */
  lemma TidyPieces()
    ensures Without(Merged1[..1], ModelCols) == Merged1[..1]
    ensures Without(Merged1[1..2], ModelCols) == []
    ensures Without(Merged1[2..5], ModelCols) == Merged1[2..5]
    ensures Without(Merged1[5..6], ModelCols) == []
    ensures Without(Merged1[6..], ModelCols) == Merged1[6..]
    ensures Without(XgbRenamed[..1], ModelCols) == []
    ensures Without(XgbRenamed[1..], ModelCols) == XgbRenamed[1..]
  {
    ModelSuffixes();
    WithoutKept(Merged1[..1], ModelCols);
    assert "RMSE" + "_Prophet" != "Model_SARIMA" by {
      assert ("RMSE" + "_Prophet")[0] == 'R';
    }
    WithoutKept(Merged1[2..5], ModelCols);
    WithoutKept(Merged1[6..], ModelCols);
    WithoutKept(XgbRenamed[1..], ModelCols);
  }

  lemma MergedWithout()
    ensures Without(Merged1, ModelCols) == Merged1[..1] + Merged1[2..5] + Merged1[6..]
  {
    TidyPieces();
    var m := Merged1;
    var a, b, c, d, e := m[..1], m[1..2], m[2..5], m[5..6], m[6..];
    assert m == a + b + c + d + e;
    WithoutConcat(a + b + c + d, e, ModelCols);
    WithoutConcat(a + b + c, d, ModelCols);
    WithoutConcat(a + b, c, ModelCols);
    WithoutConcat(a, b, ModelCols);
  }

  lemma TidyColumns()
    ensures Without(Merged1 + XgbRenamed, ModelCols) == TidyHeader
  {
    MergedWithout();
    RenamedWithout();
    WithoutConcat(Merged1, XgbRenamed, ModelCols);
    TidyPartition();
  }

  lemma RenamedWithout()
    ensures Without(XgbRenamed, ModelCols) == XgbRenamed[1..]
  {
    TidyPieces();
    var f, g := XgbRenamed[..1], XgbRenamed[1..];
    assert XgbRenamed == f + g;
    WithoutConcat(f, g, ModelCols);
  }

  lemma TidyPartition()
    ensures TidyHeader == Merged1[..1] + Merged1[2..5] + Merged1[6..] + XgbRenamed[1..]
  {
  }

  lemma TidyLong()
    ensures forall k :: 0 <= k < |TidyHeader| ==> TidyHeader[k] == Key || TidyHeader[k] == "MAPE" || |TidyHeader[k]| > 9
  {
  }

  lemma ThirdDisjoint()
    ensures forall k :: 0 <= k < |TidyHeader| && TidyHeader[k] != Key ==> TidyHeader[k] !in XgbStd
    ensures forall j :: 0 <= j < |XgbStd| && XgbStd[j] != Key ==> XgbStd[j] !in TidyHeader
  {
    TidyLong();
    XgbShort();
  }

  lemma ThirdMergeHeader()
    ensures MergeCols(TidyHeader, XgbStd, Key, "", "_XGBMulti") == TidyHeader + XgbAdded
  {
    ThirdDisjoint();
    XgbWithoutKey();
    MergeColsDisjoint(TidyHeader, XgbStd, Key, "", "_XGBMulti");
  }

  lemma FinalRenameHeader()
    ensures RenameCols(TidyHeader + XgbAdded, MultiRenames) == FinalHeader
  {
    RenameConcat(TidyHeader, XgbAdded, MultiRenames);
    TidyLong();
    RenameAbsent(TidyHeader, MultiRenames);
  }

  /** The merged table before the renames and the drop. */
  lemma JoinedHeader(prophet: Table, sarima: Table, xgboost: Table)
    requires prophet.cols == ProphetHeader && sarima.cols == SarimaHeader && xgboost.cols == XgbHeader
    ensures Joined(Prepared(prophet), Prepared(sarima), Prepared(xgboost)).Ok?
    ensures Joined(Prepared(prophet), Prepared(sarima), Prepared(xgboost)).value.cols == Merged1 + XgbAdded
  {
    PreparedHeaders(prophet, sarima, xgboost);
    KeyHeads();
    var p, s, x := Prepared(prophet), Prepared(sarima), Prepared(xgboost);
    FirstMergeHeader();
    SecondMergeHeader();
    MergeOk(p, s, Key, "_Prophet", "_SARIMA");
    MergeOk(Table(Merged1, JoinRows(p, s, Key)), x, Key, "_x", "_y");
  }

  /** Every header the merges see carries the key. */
  lemma KeyHeads()
    ensures Key in ProphetStd && Key in SarimaStd && Key in XgbStd && Key in Merged1
  {
    assert Key == ProphetStd[0] == SarimaStd[0] == XgbStd[0] == Merged1[0];
  }

  /** The prepared tables carry the standardized headers. */
  lemma PreparedHeaders(prophet: Table, sarima: Table, xgboost: Table)
    requires prophet.cols == ProphetHeader && sarima.cols == SarimaHeader && xgboost.cols == XgbHeader
    ensures Prepared(prophet).cols == ProphetStd && Prepared(sarima).cols == SarimaStd && Prepared(xgboost).cols == XgbStd
  {
    StandardHeaders();
  }

  /** On tables with the headers the four forecasting scripts write, the
      script succeeds, and the summary's columns are Pollutant, the Prophet
      and SARIMA metrics with their suffixes, the univariate XGBoost metrics
      renamed with _XGBoost, then the multivariate table's Model and its
      metrics renamed with _XGBMulti. */
  lemma SummaryHeader(prophet: Table, sarima: Table, xgboost: Table, multi: Table)
    requires prophet.cols == ProphetHeader && sarima.cols == SarimaHeader
    requires xgboost.cols == XgbHeader && multi.cols == XgbHeader
    ensures Summary(prophet, sarima, xgboost, multi).Ok?
    ensures Summary(prophet, sarima, xgboost, multi).value.cols == FinalHeader
  {
    StandardHeaders();
    JoinedHeader(prophet, sarima, xgboost);
    var merged := Joined(Prepared(prophet), Prepared(sarima), Prepared(xgboost)).value;
    SecondRenameHeader();
    TidyColumns();
    DropHeader(Rename(merged, XgbRenames), ModelCols);
    var tidy := Tidy(merged);
    assert tidy.cols == TidyHeader;
    assert Key == TidyHeader[0] == XgbStd[0];
    var m := Prepared(multi);
    assert m.cols == XgbStd;
    ThirdMergeHeader();
    FinalRenameHeader();
  }
}
