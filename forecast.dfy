/** `forecast.py`: the PM2.5 forecast the API serves. The daily records are
    narrowed to the PM2.5 parameter, their date and mean become Prophet's
    `ds` and `y`, rows without a mean are dropped, fewer than two rows is an
    error, and the answer is the seven days after the history. Every
    exception is returned as an error message instead of being raised. The
    Prophet fit and prediction is a parameter. */
module Forecast {
  import opened Wrappers
  import opened Frames
  import opened Columns
  import opened PySeq

  const Pm25Label := "PM2.5 - Local Conditions"
  const Periods: nat := 7
  const NotEnough := "Not enough PM2.5 data for forecasting."

  /** Prophet fitted on a (ds, y) history and asked for the history plus the
      given number of future days: (day, yhat) per day, or the error it
      raises. */
  type Prophet = (Table, nat) -> Outcome<seq<(int, real)>>

  predicate IsPm25(c: Cell) {
    c == Text(Pm25Label)
  }

  /** The (ds, y) history of `forecast_pm25`: the PM2.5 rows, date and mean
      selected and renamed, the dates parsed strictly, and the rows without
      a mean dropped; or the message of the exception on the way (a missing
      column, a date the parser rejects). */
  function History(data: Table, parse: string -> Option<int>): (r: Outcome<Table>)
    ensures r.Ok? ==> r.value.cols == ["ds", "y"]
  {
    if "parameter" !in data.cols then Err("'parameter'")
    else
      var pm := Where(data, "parameter", IsPm25);
      match Select(pm, ["date_local", "arithmetic_mean"])
      case Err(m) => Err(m)
      case Ok(sel) =>
        var df := Table(["ds", "y"], sel.rows);
        match StrictDates(KeyCol(df, "ds"), parse)
        case Err(m) => Err(m)
        case Ok(ds) => Ok(DropMissing(PutColumn(df, "ds", ds), "y"))
  }

  /** `forecast_pm25`: the last seven (ds, yhat) rows of the forecast, or
      the error message (`{"error": ...}`). */
  function ForecastPm25(data: Table, parse: string -> Option<int>, prophet: Prophet): (r: Outcome<seq<(int, real)>>)
  {
    match History(data, parse)
    case Err(m) => Err(m)
    case Ok(h) =>
      if |h.rows| < 2 then Err(NotEnough)
      else
        match prophet(h, Periods)
        case Err(m) => Err(m)
        case Ok(fc) => Ok(Tail(fc, Periods))
  }

  // ----- what the history holds -----

  /** The history row an input row gives: its parsed date and its mean. */
  function HistoryRow(cols: seq<string>, row: seq<Cell>, parse: string -> Option<int>): seq<Cell> {
    [ToDate(Lookup(cols, row, "date_local"), parse), Lookup(cols, row, "arithmetic_mean")]
  }

  /** Reference definition: one history row per PM2.5 input row with a mean,
      in input order. */
  function Pm25Rows(cols: seq<string>, rows: seq<seq<Cell>>, parse: string -> Option<int>): seq<seq<Cell>>
  {
    if rows == [] then []
    else
      var keep := IsPm25(Lookup(cols, rows[0], "parameter")) && Filled(Lookup(cols, rows[0], "arithmetic_mean"));
      (if keep then [HistoryRow(cols, rows[0], parse)] else []) + Pm25Rows(cols, rows[1..], parse)
  }

  function Mapped(cols: seq<string>, rows: seq<seq<Cell>>, parse: string -> Option<int>): (m: seq<seq<Cell>>)
    ensures |m| == |rows| && forall i :: 0 <= i < |rows| ==> m[i] == HistoryRow(cols, rows[i], parse)
  {
    seq(|rows|, i requires 0 <= i < |rows| => HistoryRow(cols, rows[i], parse))
  }

  lemma MappedCons(cols: seq<string>, rows: seq<seq<Cell>>, parse: string -> Option<int>)
    requires rows != []
    ensures Mapped(cols, rows, parse) == [HistoryRow(cols, rows[0], parse)] + Mapped(cols, rows[1..], parse)
  {
  }

  /** Mapping the PM2.5 rows and then dropping the rows without a mean is
      the reference definition. */
  lemma {:induction false} FilterMapFilter(cols: seq<string>, rows: seq<seq<Cell>>, parse: string -> Option<int>)
    ensures KeepRows(["ds", "y"], Mapped(cols, KeepRows(cols, rows, "parameter", IsPm25), parse), "y", Filled)
         == Pm25Rows(cols, rows, parse)
    decreases |rows|
  {
    if rows != [] {
      FilterMapFilter(cols, rows[1..], parse);
      var pm := KeepRows(cols, rows, "parameter", IsPm25);
      var rest := KeepRows(cols, rows[1..], "parameter", IsPm25);
      if IsPm25(Lookup(cols, rows[0], "parameter")) {
        assert pm == [rows[0]] + rest;
        MappedCons(cols, pm, parse);
        assert pm[1..] == rest;
        var h := HistoryRow(cols, rows[0], parse);
        assert Lookup(["ds", "y"], h, "y") == Lookup(cols, rows[0], "arithmetic_mean");
        KeepRowsConcat(["ds", "y"], [h], Mapped(cols, rest, parse), "y", Filled);
      } else {
        assert pm == rest;
      }
    }
  }

  /** After the strict date parse succeeds, the history is exactly the
      reference rows: the PM2.5 rows that have a mean, in input order, each
      as (parsed date, mean). */
  lemma HistoryIsPm25Rows(data: Table, parse: string -> Option<int>)
    requires History(data, parse).Ok?
    ensures History(data, parse).value == Table(["ds", "y"], Pm25Rows(data.cols, data.rows, parse))
  {
    var pm := Where(data, "parameter", IsPm25);
    var sel := Select(pm, ["date_local", "arithmetic_mean"]).value;
    var df := Table(["ds", "y"], sel.rows);
    var ds := StrictDates(KeyCol(df, "ds"), parse).value;
    var put := PutColumn(df, "ds", ds);
    var m := Mapped(data.cols, pm.rows, parse);
    assert put.rows == m by {
      forall i | 0 <= i < |m| ensures put.rows[i] == m[i] {
        assert sel.rows[i] == Realign(pm.cols, pm.rows[i], ["date_local", "arithmetic_mean"]);
        assert put.rows[i] == sel.rows[i][0 := ds[i]];
      }
    }
    FilterMapFilter(data.cols, data.rows, parse);
  }

  // ----- the properties the endpoint promises -----

  /** A forecast is returned only when at least two PM2.5 rows carry a mean,
      and then it is the last seven rows of the model's output; when the
      model returns the history followed by the seven requested days, those
      seven days are exactly the answer. */
  lemma ForecastIsFuture(data: Table, parse: string -> Option<int>, prophet: Prophet)
    requires ForecastPm25(data, parse, prophet).Ok?
    ensures var h := History(data, parse).value;
      h.rows == Pm25Rows(data.cols, data.rows, parse) && |h.rows| >= 2 &&
      var fc := prophet(h, Periods).value;
      ForecastPm25(data, parse, prophet).value == Tail(fc, Periods) &&
      (|fc| == |h.rows| + Periods ==> ForecastPm25(data, parse, prophet).value == fc[|h.rows|..])
  {
    HistoryIsPm25Rows(data, parse);
  }

  /** Too little PM2.5 data is reported, not raised: when the parse succeeds
      and fewer than two PM2.5 rows have a mean, the answer is the
      "not enough data" message, whatever the model would do. */
  lemma TooLittleData(data: Table, parse: string -> Option<int>, prophet: Prophet)
    requires History(data, parse).Ok? && |Pm25Rows(data.cols, data.rows, parse)| < 2
    ensures ForecastPm25(data, parse, prophet) == Err(NotEnough)
  {
    HistoryIsPm25Rows(data, parse);
  }

  /** Records without a `parameter` field (no data at all, for instance)
      give the KeyError message. */
  lemma NoParameterColumn(data: Table, parse: string -> Option<int>, prophet: Prophet)
    requires "parameter" !in data.cols
    ensures ForecastPm25(data, parse, prophet) == Err("'parameter'")
  {
  }

  /** A PM2.5 row whose date the parser rejects makes the whole call an
      error (strict `pd.to_datetime`), whatever the other rows hold. */
  lemma BadPm25Date(data: Table, parse: string -> Option<int>, prophet: Prophet, i: nat)
    requires WellFormed(data) && i < |data.rows|
    requires "parameter" in data.cols && "date_local" in data.cols && "arithmetic_mean" in data.cols
    requires IsPm25(Get(data, i, "parameter")) && BadDateCell(Get(data, i, "date_local"), parse)
    ensures ForecastPm25(data, parse, prophet).Err?
  {
    var pm := Where(data, "parameter", IsPm25);
    WhereRows(data, "parameter", IsPm25);
    assert data.rows[i] in pm.rows;
    var j :| 0 <= j < |pm.rows| && pm.rows[j] == data.rows[i];
    var sel := Select(pm, ["date_local", "arithmetic_mean"]).value;
    var df := Table(["ds", "y"], sel.rows);
    SelectValues(pm, ["date_local", "arithmetic_mean"], j, "date_local");
    assert Get(df, j, "ds") == Get(sel, j, "date_local");
    assert BadDateCell(KeyCol(df, "ds")[j], parse);
  }
}
