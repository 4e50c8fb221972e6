/** `merge_air_quality_metrics.py`: the multivariate XGBoost metrics are
    labelled with their model and appended after the univariate metrics. */
module MergeAirQualityMetrics {
  import opened Frames

  const MultiLabel := "XGBoost-Multivariate"

  /** `pd.concat([uni_df, multi_df], ignore_index=True)` after
      `multi_df['Model'] = 'XGBoost-Multivariate'`. */
  function Combined(uni: Table, multi: Table): Table
    requires WellFormed(multi)
  {
    Concat(uni, SetConst(multi, "Model", Text(MultiLabel)))
  }

  /** The script: label the multivariate frame in place, then concatenate. */
  method MergeMetrics(uni: Table, multi: Table) returns (combined: Table)
    requires WellFormed(multi)
    ensures combined == Combined(uni, multi)
  {
    var multiDf := new FrameRef(multi);
    multiDf.SetColumn("Model", Text(MultiLabel));
    combined := Concat(uni, multiDf.table);
  }

  /** The univariate rows come first and pass through unchanged; the
      multivariate rows follow, each labelled 'XGBoost-Multivariate' and
      otherwise unchanged; the row count is the sum and the columns are the
      union of the inputs' (plus Model), a row lacking a column reading a
      missing value there. */
  lemma CombinedRows(uni: Table, multi: Table, c: string)
    requires WellFormed(multi)
    ensures var r := Combined(uni, multi);
      WellFormed(r) && |r.rows| == |uni.rows| + |multi.rows| &&
      (forall x :: x in r.cols <==> x in uni.cols || x in multi.cols || x == "Model") &&
      (forall i :: 0 <= i < |uni.rows| ==> Get(r, i, c) == Get(uni, i, c)) &&
      (forall j :: 0 <= j < |multi.rows| ==>
        Get(r, |uni.rows| + j, c) == if c == "Model" then Text(MultiLabel) else Get(multi, j, c))
  {
    var m := SetConst(multi, "Model", Text(MultiLabel));
    ConcatCols(uni, m);
    forall i | 0 <= i < |uni.rows| ensures Get(Combined(uni, multi), i, c) == Get(uni, i, c) {
      ConcatLeftRows(uni, m, i, c);
    }
    forall j | 0 <= j < |multi.rows|
      ensures Get(Combined(uni, multi), |uni.rows| + j, c) == if c == "Model" then Text(MultiLabel) else Get(multi, j, c)
    {
      ConcatRightRows(uni, m, j, c);
      if c != "Model" {
        SetConstKeepsOthers(multi, "Model", Text(MultiLabel), j, c);
      }
    }
  }
}
