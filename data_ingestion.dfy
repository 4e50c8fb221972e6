/** `data_ingestion.py`, `get_clean_pm25_dataframe`: the records the EPA API
    returned, validated and reduced to Prophet's (ds, y): no records or a
    missing field gives an empty frame, rows with a missing, unparsable
    date or a non-numeric value are dropped, and the rest are sorted by
    date. Fetching the records is not part of this model. */
module DataIngestion {
  import opened Wrappers
  import opened Aggregate
  import opened Frames
  import opened Columns

  const Fields: seq<string> := ["date_local", "arithmetic_mean"]

  /** The sort key of a (ds, y) row: its day (every row that reaches the
      sort has one). */
  function RowDay(row: seq<Cell>): int {
    if |row| > 0 && row[0].Date? then row[0].day else 0
  }

  /** `get_clean_pm25_dataframe`: None is the bare `pd.DataFrame()` the two
      guards return; otherwise the (ds, y) frame. */
  function CleanPm25Frame(data: Table, parse: string -> Option<int>, parseNum: string -> Option<real>): (r: Option<Table>)
    requires WellFormed(data)
  {
    if data.rows == [] then None
    else if "date_local" !in data.cols || "arithmetic_mean" !in data.cols then None
    else
      var sel := Select(data, Fields).value;
      var present := DropMissing(DropMissing(sel, "date_local"), "arithmetic_mean");
      var df := Rename(present, map["date_local" := "ds", "arithmetic_mean" := "y"]);
      var typed := Typed(df, parse, parseNum);
      var valid := DropMissing(DropMissing(typed, "ds"), "y");
      Some(Table(valid.cols, SortBy(valid.rows, RowDay)))
  }

  // ----- reference definition -----

  /** The (ds, y) row an input row becomes, if it survives: its date parsed
      and its value read as a number, both present. */
  function Converted(cols: seq<string>, row: seq<Cell>, parse: string -> Option<int>, parseNum: string -> Option<real>): seq<Cell> {
    [ToDate(Lookup(cols, row, "date_local"), parse), ToNumber(Lookup(cols, row, "arithmetic_mean"), parseNum)]
  }

  predicate Survives(cols: seq<string>, row: seq<Cell>, parse: string -> Option<int>, parseNum: string -> Option<real>) {
    var c := Converted(cols, row, parse, parseNum);
    c[0].Date? && c[1].Num?
  }

  /** The valid rows, converted, in input order. */
  function ValidRows(cols: seq<string>, rows: seq<seq<Cell>>, parse: string -> Option<int>, parseNum: string -> Option<real>): seq<seq<Cell>>
  {
    if rows == [] then []
    else
      (if Survives(cols, rows[0], parse, parseNum) then [Converted(cols, rows[0], parse, parseNum)] else [])
        + ValidRows(cols, rows[1..], parse, parseNum)
  }

  /** The conversion of the selected (date, value) rows. */
  function Convert(rows: seq<seq<Cell>>, parse: string -> Option<int>, parseNum: string -> Option<real>): (r: seq<seq<Cell>>)
    ensures |r| == |rows|
    ensures forall i :: 0 <= i < |rows| ==>
      r[i] == [ToDate(Lookup(["ds", "y"], rows[i], "ds"), parse), ToNumber(Lookup(["ds", "y"], rows[i], "y"), parseNum)]
  {
    seq(|rows|, i requires 0 <= i < |rows| =>
      [ToDate(Lookup(["ds", "y"], rows[i], "ds"), parse), ToNumber(Lookup(["ds", "y"], rows[i], "y"), parseNum)])
  }

  /** The steps of the pipeline, on the rows. */
  function Steps(cols: seq<string>, rows: seq<seq<Cell>>, parse: string -> Option<int>, parseNum: string -> Option<real>): seq<seq<Cell>> {
    Valid2(Convert(Present2(RealignAll(cols, rows, Fields)), parse, parseNum))
  }

  /** Every step works row by row, so the steps distribute over a split of
      the rows. */
  lemma StepsConcat(cols: seq<string>, a: seq<seq<Cell>>, b: seq<seq<Cell>>, parse: string -> Option<int>, parseNum: string -> Option<real>)
    ensures Steps(cols, a + b, parse, parseNum) == Steps(cols, a, parse, parseNum) + Steps(cols, b, parse, parseNum)
  {
    RealignAllConcat(cols, a, b);
    var sa, sb := RealignAll(cols, a, Fields), RealignAll(cols, b, Fields);
    PresentConcat(sa, sb);
    var pa, pb := Present2(sa), Present2(sb);
    ConvertConcat(pa, pb, parse, parseNum);
    ValidConcat(Convert(pa, parse, parseNum), Convert(pb, parse, parseNum));
  }

  /** `dropna()` on the selected (date, value) rows. */
  function Present2(sel: seq<seq<Cell>>): seq<seq<Cell>> {
    KeepRows(Fields, KeepRows(Fields, sel, "date_local", Filled), "arithmetic_mean", Filled)
  }

  /** `dropna()` on the converted (ds, y) rows. */
  function Valid2(rows: seq<seq<Cell>>): seq<seq<Cell>> {
    KeepRows(["ds", "y"], KeepRows(["ds", "y"], rows, "ds", Filled), "y", Filled)
  }

  lemma RealignAllConcat(cols: seq<string>, a: seq<seq<Cell>>, b: seq<seq<Cell>>)
    ensures RealignAll(cols, a + b, Fields) == RealignAll(cols, a, Fields) + RealignAll(cols, b, Fields)
  {
  }

  lemma ConvertConcat(a: seq<seq<Cell>>, b: seq<seq<Cell>>, parse: string -> Option<int>, parseNum: string -> Option<real>)
    ensures Convert(a + b, parse, parseNum) == Convert(a, parse, parseNum) + Convert(b, parse, parseNum)
  {
  }

  lemma PresentConcat(a: seq<seq<Cell>>, b: seq<seq<Cell>>)
    ensures Present2(a + b) == Present2(a) + Present2(b)
  {
    KeepRowsConcat(Fields, a, b, "date_local", Filled);
    KeepRowsConcat(Fields, KeepRows(Fields, a, "date_local", Filled), KeepRows(Fields, b, "date_local", Filled), "arithmetic_mean", Filled);
  }

  lemma ValidConcat(a: seq<seq<Cell>>, b: seq<seq<Cell>>)
    ensures Valid2(a + b) == Valid2(a) + Valid2(b)
  {
    KeepRowsConcat(["ds", "y"], a, b, "ds", Filled);
    KeepRowsConcat(["ds", "y"], KeepRows(["ds", "y"], a, "ds", Filled), KeepRows(["ds", "y"], b, "ds", Filled), "y", Filled);
  }

  /** One input row goes through the steps as the reference says. */
  lemma StepsSingle(cols: seq<string>, row: seq<Cell>, parse: string -> Option<int>, parseNum: string -> Option<real>)
    ensures Steps(cols, [row], parse, parseNum) ==
      if Survives(cols, row, parse, parseNum) then [Converted(cols, row, parse, parseNum)] else []
  {
    var r := Realign(cols, row, Fields);
    assert RealignAll(cols, [row], Fields) == [r];
    assert Lookup(Fields, r, "date_local") == Lookup(cols, row, "date_local");
    assert Lookup(Fields, r, "arithmetic_mean") == Lookup(cols, row, "arithmetic_mean");
    KeepRowsCons(Fields, r, [], "date_local", Filled);
    KeepRowsCons(Fields, r, [], "arithmetic_mean", Filled);
    var c := [ToDate(Lookup(["ds", "y"], r, "ds"), parse), ToNumber(Lookup(["ds", "y"], r, "y"), parseNum)];
    assert Convert([r], parse, parseNum) == [c];
    assert c == Converted(cols, row, parse, parseNum);
    KeepRowsCons(["ds", "y"], c, [], "ds", Filled);
    KeepRowsCons(["ds", "y"], c, [], "y", Filled);
    if !Filled(Lookup(cols, row, "date_local")) || !Filled(Lookup(cols, row, "arithmetic_mean")) {
      assert Convert([], parse, parseNum) == [];
      assert !Survives(cols, row, parse, parseNum);
    }
  }

  lemma {:induction false} StepsAreValidRows(cols: seq<string>, rows: seq<seq<Cell>>, parse: string -> Option<int>, parseNum: string -> Option<real>)
    ensures Steps(cols, rows, parse, parseNum) == ValidRows(cols, rows, parse, parseNum)
    decreases |rows|
  {
    if rows == [] {
      assert Convert([], parse, parseNum) == [];
    } else {
      StepsAreValidRows(cols, rows[1..], parse, parseNum);
      assert rows == [rows[0]] + rows[1..];
      StepsConcat(cols, [rows[0]], rows[1..], parse, parseNum);
      StepsSingle(cols, rows[0], parse, parseNum);
    }
  }

  /** `df['ds'] = pd.to_datetime(df['ds'], errors='coerce')` then
      `df['y'] = pd.to_numeric(df['y'], errors='coerce')`. */
  function Typed(df: Table, parse: string -> Option<int>, parseNum: string -> Option<real>): (r: Table)
    requires WellFormed(df)
    ensures WellFormed(r) && ("ds" in df.cols && "y" in df.cols ==> r.cols == df.cols)
  {
    MapColumn(MapColumn(df, "ds", c => ToDate(c, parse)), "y", c => ToNumber(c, parseNum))
  }

  lemma TypedRows(df: Table, parse: string -> Option<int>, parseNum: string -> Option<real>)
    requires WellFormed(df) && df.cols == ["ds", "y"]
    ensures Typed(df, parse, parseNum).rows == Convert(df.rows, parse, parseNum)
  {
    var m1 := MapColumn(df, "ds", c => ToDate(c, parse));
    var typed := Typed(df, parse, parseNum);
    assert typed == MapColumn(m1, "y", c => ToNumber(c, parseNum));
    forall i | 0 <= i < |typed.rows| ensures typed.rows[i] == Convert(df.rows, parse, parseNum)[i] {
      assert Get(typed, i, "y") == ToNumber(Get(m1, i, "y"), parseNum);
      assert Get(m1, i, "y") == Get(df, i, "y") by {
        PutKeepsOthers(df, "ds", seq(|KeyCol(df, "ds")|, j requires 0 <= j < |KeyCol(df, "ds")| => ToDate(KeyCol(df, "ds")[j], parse)), i, "y");
      }
      assert Get(typed, i, "ds") == Get(m1, i, "ds") by {
        PutKeepsOthers(m1, "y", seq(|KeyCol(m1, "y")|, j requires 0 <= j < |KeyCol(m1, "y")| => ToNumber(KeyCol(m1, "y")[j], parseNum)), i, "ds");
      }
    }
  }

  /** Before sorting, the frame holds exactly the valid rows in input order;
      the sort makes it ascending by day without losing or adding a row. */
  lemma ValidFrame(data: Table, parse: string -> Option<int>, parseNum: string -> Option<real>)
    requires WellFormed(data) && data.rows != [] && "date_local" in data.cols && "arithmetic_mean" in data.cols
    ensures var r := CleanPm25Frame(data, parse, parseNum).value;
      r.cols == ["ds", "y"] && multiset(r.rows) == multiset(ValidRows(data.cols, data.rows, parse, parseNum)) &&
      SortedBy(r.rows, RowDay)
  {
    var sel := Select(data, Fields).value;
    var present := DropMissing(DropMissing(sel, "date_local"), "arithmetic_mean");
    assert present.rows == Present2(sel.rows);
    var df := Rename(present, map["date_local" := "ds", "arithmetic_mean" := "y"]);
    assert df.cols == ["ds", "y"];
    TypedRows(df, parse, parseNum);
    StepsAreValidRows(data.cols, data.rows, parse, parseNum);
  }

  // ----- the properties the cleaner promises -----

  /** The bare empty frame comes back exactly when there are no records or
      one of the two fields is missing. */
  lemma EmptyFrameGuards(data: Table, parse: string -> Option<int>, parseNum: string -> Option<real>)
    requires WellFormed(data)
    ensures CleanPm25Frame(data, parse, parseNum).None? <==>
      data.rows == [] || "date_local" !in data.cols || "arithmetic_mean" !in data.cols
  {
  }

  /** The row comes from an input row that survives the cleaning. */
  predicate FromInput(row: seq<Cell>, data: Table, parse: string -> Option<int>, parseNum: string -> Option<real>) {
    exists i :: 0 <= i < |data.rows| && Survives(data.cols, data.rows[i], parse, parseNum) && row == Converted(data.cols, data.rows[i], parse, parseNum)
  }

  /** The output is sorted ascending by ds, and its rows are exactly the
      converted input rows whose date parses and whose value reads as a
      number: every one of them is there, each is (day, number), and
      nothing is synthesised. */
  lemma CleanRows(data: Table, parse: string -> Option<int>, parseNum: string -> Option<real>)
    requires WellFormed(data) && CleanPm25Frame(data, parse, parseNum).Some?
    ensures var r := CleanPm25Frame(data, parse, parseNum).value;
      r.cols == ["ds", "y"] && SortedBy(r.rows, RowDay) &&
      forall row: seq<Cell> :: row in r.rows <==> FromInput(row, data, parse, parseNum)
    ensures forall row: seq<Cell> :: FromInput(row, data, parse, parseNum) ==> |row| == 2 && row[0].Date? && row[1].Num?
  {
    ValidFrame(data, parse, parseNum);
    var r := CleanPm25Frame(data, parse, parseNum).value;
    forall row: seq<Cell> ensures row in r.rows <==> FromInput(row, data, parse, parseNum) {
      ValidRowsMembers(data, parse, parseNum, row);
      SameMembers(r.rows, ValidRows(data.cols, data.rows, parse, parseNum), row);
    }
  }

  lemma SameMembers<T>(a: seq<T>, b: seq<T>, x: T)
    requires multiset(a) == multiset(b)
    ensures x in a <==> x in b
  {
    assert x in a <==> x in multiset(a);
    assert x in b <==> x in multiset(b);
  }

  /** The valid rows are the converted surviving input rows. */
  lemma ValidRowsMembers(data: Table, parse: string -> Option<int>, parseNum: string -> Option<real>, row: seq<Cell>)
    ensures row in ValidRows(data.cols, data.rows, parse, parseNum) <==> FromInput(row, data, parse, parseNum)
  {
    ValidRowsFrom(data.cols, data.rows, parse, parseNum, row);
  }

  lemma {:induction false} ValidRowsFrom(cols: seq<string>, rows: seq<seq<Cell>>, parse: string -> Option<int>, parseNum: string -> Option<real>, row: seq<Cell>)
    ensures row in ValidRows(cols, rows, parse, parseNum) <==>
      exists i :: 0 <= i < |rows| && Survives(cols, rows[i], parse, parseNum) && row == Converted(cols, rows[i], parse, parseNum)
    decreases |rows|
  {
    if rows != [] {
      ValidRowsFrom(cols, rows[1..], parse, parseNum, row);
      if exists i :: 0 <= i < |rows| && Survives(cols, rows[i], parse, parseNum) && row == Converted(cols, rows[i], parse, parseNum) {
        var i :| 0 <= i < |rows| && Survives(cols, rows[i], parse, parseNum) && row == Converted(cols, rows[i], parse, parseNum);
        if i > 0 {
          assert rows[1..][i - 1] == rows[i];
        }
      }
      if exists i :: 0 <= i < |rows[1..]| && Survives(cols, rows[1..][i], parse, parseNum) && row == Converted(cols, rows[1..][i], parse, parseNum) {
        var i :| 0 <= i < |rows[1..]| && Survives(cols, rows[1..][i], parse, parseNum) && row == Converted(cols, rows[1..][i], parse, parseNum);
        assert rows[i + 1] == rows[1..][i];
      }
    }
  }
}
