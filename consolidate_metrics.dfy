/** `consolidate_metrics.py`: the three weather metric tables (Prophet,
    SARIMA, multivariate XGBoost) placed one after the other in one table. */
module ConsolidateMetrics {
  import opened Frames

  /** `pd.concat([prophet, sarima, xgboost], ignore_index=True)`. */
  function Consolidated(prophet: Table, sarima: Table, xgboost: Table): Table {
    Concat(Concat(prophet, sarima), xgboost)
  }

  /** The consolidated table has one row per input row, and its columns are
      those of the three inputs. */
  lemma ConsolidatedShape(prophet: Table, sarima: Table, xgboost: Table)
    ensures var r := Consolidated(prophet, sarima, xgboost);
      WellFormed(r) && |r.rows| == |prophet.rows| + |sarima.rows| + |xgboost.rows| &&
      forall c :: c in r.cols <==> c in prophet.cols || c in sarima.cols || c in xgboost.cols
  {
    ConcatCols(prophet, sarima);
    ConcatCols(Concat(prophet, sarima), xgboost);
  }

  /** The Prophet rows come first, then the SARIMA rows, then the XGBoost
      rows, renumbered from 0; no row is altered, dropped or de-duplicated:
      under every column name each reads back its source row's value (a
      missing value under a column its table lacks). */
  lemma ConsolidatedRows(prophet: Table, sarima: Table, xgboost: Table, c: string)
    ensures var r := Consolidated(prophet, sarima, xgboost);
      var np := |prophet.rows|;
      var ns := |sarima.rows|;
      (forall i :: 0 <= i < np ==> Get(r, i, c) == Get(prophet, i, c)) &&
      (forall j :: 0 <= j < ns ==> Get(r, np + j, c) == Get(sarima, j, c)) &&
      (forall k :: 0 <= k < |xgboost.rows| ==> Get(r, np + ns + k, c) == Get(xgboost, k, c))
  {
    ConsolidatedProphet(prophet, sarima, xgboost, c);
    ConsolidatedSarima(prophet, sarima, xgboost, c);
    ConsolidatedXgboost(prophet, sarima, xgboost, c);
  }

  lemma ConsolidatedProphet(prophet: Table, sarima: Table, xgboost: Table, c: string)
    ensures forall i :: 0 <= i < |prophet.rows| ==> Get(Consolidated(prophet, sarima, xgboost), i, c) == Get(prophet, i, c)
  {
    forall i | 0 <= i < |prophet.rows| ensures Get(Consolidated(prophet, sarima, xgboost), i, c) == Get(prophet, i, c) {
      ConsolidatedProphetAt(prophet, sarima, xgboost, c, i);
    }
  }

  lemma ConsolidatedProphetAt(prophet: Table, sarima: Table, xgboost: Table, c: string, i: nat)
    requires i < |prophet.rows|
    ensures Get(Consolidated(prophet, sarima, xgboost), i, c) == Get(prophet, i, c)
  {
    var ps := Concat(prophet, sarima);
    assert i < |ps.rows|;
    ConcatLeftRows(ps, xgboost, i, c);
    ConcatLeftRows(prophet, sarima, i, c);
  }

  lemma ConsolidatedSarima(prophet: Table, sarima: Table, xgboost: Table, c: string)
    ensures forall j :: 0 <= j < |sarima.rows| ==>
      Get(Consolidated(prophet, sarima, xgboost), |prophet.rows| + j, c) == Get(sarima, j, c)
  {
    forall j | 0 <= j < |sarima.rows|
      ensures Get(Consolidated(prophet, sarima, xgboost), |prophet.rows| + j, c) == Get(sarima, j, c)
    {
      ConsolidatedSarimaAt(prophet, sarima, xgboost, c, j);
    }
  }

  lemma ConsolidatedSarimaAt(prophet: Table, sarima: Table, xgboost: Table, c: string, j: nat)
    requires j < |sarima.rows|
    ensures Get(Consolidated(prophet, sarima, xgboost), |prophet.rows| + j, c) == Get(sarima, j, c)
  {
    var ps := Concat(prophet, sarima);
    var i := |prophet.rows| + j;
    assert i < |ps.rows|;
    ConcatLeftRows(ps, xgboost, i, c);
    ConcatRightRows(prophet, sarima, j, c);
  }

  lemma ConsolidatedXgboost(prophet: Table, sarima: Table, xgboost: Table, c: string)
    ensures forall k :: 0 <= k < |xgboost.rows| ==>
      Get(Consolidated(prophet, sarima, xgboost), |prophet.rows| + |sarima.rows| + k, c) == Get(xgboost, k, c)
  {
    forall k | 0 <= k < |xgboost.rows|
      ensures Get(Consolidated(prophet, sarima, xgboost), |prophet.rows| + |sarima.rows| + k, c) == Get(xgboost, k, c)
    {
      ConsolidatedXgboostAt(prophet, sarima, xgboost, c, k);
    }
  }

  lemma ConsolidatedXgboostAt(prophet: Table, sarima: Table, xgboost: Table, c: string, k: nat)
    requires k < |xgboost.rows|
    ensures Get(Consolidated(prophet, sarima, xgboost), |prophet.rows| + |sarima.rows| + k, c) == Get(xgboost, k, c)
  {
    var ps := Concat(prophet, sarima);
    assert |ps.rows| == |prophet.rows| + |sarima.rows|;
    ConcatRightRows(ps, xgboost, k, c);
  }
}
