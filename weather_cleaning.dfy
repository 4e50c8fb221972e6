/** `weather_cleaning.py`: the processed weather table is cut down to the
    rows with a parsable DATE, a present Average_Temperature (when that
    column exists) and a year between 2000 and 2024, without the
    `*_ATTRIBUTES` columns and with a Year column added. Reading and writing
    the CSV files is not part of this model. */
module WeatherCleaning {
  import opened Wrappers
  import opened Calendar
  import opened Frames
  import opened Columns
  import opened PySeq

  /** The DATE column parsed leniently (`errors='coerce'`). */
  function DatesParsed(df: Table, parse: string -> Option<int>): (t: Table)
    requires WellFormed(df)
    ensures WellFormed(t) && |t.rows| == |df.rows|
  {
    Derive(df, "DATE", "DATE", DateCoerce(parse))
  }

  /** The date step: with a DATE column, parse it and drop the rows it leaves
      without a date. */
  function ParseDates(df: Table, parse: string -> Option<int>): (t: Table)
    requires WellFormed(df)
    ensures WellFormed(t) && t.cols == df.cols
  {
    if "DATE" in df.cols then DropMissing(DatesParsed(df, parse), "DATE") else df
  }

  /** The average step: with an Average_Temperature column, drop the rows
      missing it. */
  function DropNoAverage(t: Table): (r: Table)
    ensures r.cols == t.cols && (WellFormed(t) ==> WellFormed(r))
  {
    if "Average_Temperature" in t.cols then DropMissing(t, "Average_Temperature") else t
  }

  /** The columns whose name ends in `_ATTRIBUTES`. */
  function AttributeCols(cols: seq<string>): set<string> {
    set c | c in cols && EndsWith(c, "_ATTRIBUTES")
  }

  /** The attribute step: the table without its `_ATTRIBUTES` columns. */
  function DropAttributes(t: Table): (r: Table)
    ensures WellFormed(r) && |r.rows| == |t.rows|
  {
    DropWellFormed(t, AttributeCols(t.cols));
    Drop(t, AttributeCols(t.cols))
  }

  /** `.dt.year` of a timestamp cell. */
  function YearCell(c: Cell): Cell {
    if c.Date? then Num(Year(c.day) as real) else Null
  }

  /** A year from 2000 to 2024. */
  predicate InWindow(c: Cell) {
    c.Num? && 2000.0 <= c.x <= 2024.0
  }

  /** The cleaning script, from the date step to the year-range filter.
      Without a DATE column, `.dt.year` raises a KeyError. */
  function CleanWeather(df: Table, parse: string -> Option<int>): Outcome<Table>
    requires WellFormed(df)
  {
    var t := DropAttributes(DropNoAverage(ParseDates(df, parse)));
    if "DATE" !in t.cols then Err("KeyError: 'DATE'")
    else Ok(Where(Derive(t, "DATE", "Year", YearCell), "Year", InWindow))
  }

  /** Neither DATE nor Year is an attribute column. */
  lemma NotAttributes(cols: seq<string>)
    ensures "DATE" !in AttributeCols(cols) && "Year" !in AttributeCols(cols)
  {
  }

  /** The script fails exactly when the table has no DATE column. */
  lemma CleanNeedsDate(df: Table, parse: string -> Option<int>)
    requires WellFormed(df)
    ensures CleanWeather(df, parse).Err? <==> "DATE" !in df.cols
  {
    NotAttributes(df.cols);
  }

  /** The header: the input's columns in order without the `_ATTRIBUTES`
      ones, then Year unless the input already had it. */
  lemma CleanHeader(df: Table, parse: string -> Option<int>)
    requires WellFormed(df) && CleanWeather(df, parse).Ok?
    ensures CleanWeather(df, parse).value.cols ==
      Without(df.cols, AttributeCols(df.cols)) + (if "Year" in df.cols then [] else ["Year"])
  {
    var t0 := DropNoAverage(ParseDates(df, parse));
    DropHeader(t0, AttributeCols(df.cols));
    NotAttributes(df.cols);
  }

  // ----- rows -----

  /** Record i survives: its DATE parses, its Average_Temperature (when the
      column exists) is present, and its year lies in 2000..2024. */
  predicate Survives(df: Table, parse: string -> Option<int>, i: nat)
    requires i < |df.rows|
  {
    var d := ToDate(Get(df, i, "DATE"), parse);
    d.Date? && ("Average_Temperature" in df.cols ==> !Get(df, i, "Average_Temperature").Null?) &&
    InWindow(YearCell(d))
  }

  /** What the cleaned table holds under column c for record i. */
  function Expected(df: Table, parse: string -> Option<int>, i: nat, c: string): Cell
    requires i < |df.rows|
  {
    var d := ToDate(Get(df, i, "DATE"), parse);
    if c == "Year" then YearCell(d) else if c == "DATE" then d else Get(df, i, c)
  }

  /** A row over the header cols that carries record i's expected values. */
  predicate Matches(cols: seq<string>, row: seq<Cell>, df: Table, parse: string -> Option<int>, i: nat)
    requires i < |df.rows|
  {
    |row| == |cols| && forall c :: c in cols ==> Lookup(cols, row, c) == Expected(df, parse, i, c)
  }

  /** The rows left after the two row filters. */
  function Filtered(df: Table, parse: string -> Option<int>): (t: Table)
    requires WellFormed(df) && "DATE" in df.cols
    ensures WellFormed(t) && t.cols == df.cols
  {
    DropNoAverage(DropMissing(DatesParsed(df, parse), "DATE"))
  }

  /** The table before the year filter. */
  function WithYear(df: Table, parse: string -> Option<int>): (t: Table)
    requires WellFormed(df) && "DATE" in df.cols
    ensures WellFormed(t) && |t.rows| == |Filtered(df, parse).rows|
  {
    Derive(DropAttributes(Filtered(df, parse)), "DATE", "Year", YearCell)
  }

  /** A filtered row is a parsed record that passed the two filters, and
      every such record is kept. */
  lemma FilteredRows(df: Table, parse: string -> Option<int>, row: seq<Cell>)
    requires WellFormed(df) && "DATE" in df.cols
    ensures var t1 := DatesParsed(df, parse);
      row in Filtered(df, parse).rows <==>
        exists i :: 0 <= i < |df.rows| && row == t1.rows[i] && !ToDate(Get(df, i, "DATE"), parse).Null? &&
          ("Average_Temperature" in df.cols ==> !Get(df, i, "Average_Temperature").Null?)
  {
    var t1 := DatesParsed(df, parse);
    var t2 := DropMissing(t1, "DATE");
    WhereRows(t1, "DATE", Filled);
    WhereRows(t2, "Average_Temperature", Filled);
    assert t1.cols == df.cols;
    forall i | 0 <= i < |df.rows|
      ensures Lookup(t1.cols, t1.rows[i], "DATE") == ToDate(Get(df, i, "DATE"), parse)
      ensures Lookup(t1.cols, t1.rows[i], "Average_Temperature") == Get(df, i, "Average_Temperature")
    {
      assert Get(t1, i, "DATE") == Lookup(t1.cols, t1.rows[i], "DATE");
      assert Get(t1, i, "Average_Temperature") == Lookup(t1.cols, t1.rows[i], "Average_Temperature");
    }
  }

  /** Row j of the table before the year filter carries the values of the
      record i its filtered row came from. */
  lemma WithYearRow(df: Table, parse: string -> Option<int>, j: nat, i: nat)
    requires WellFormed(df) && "DATE" in df.cols
    requires j < |Filtered(df, parse).rows| && i < |df.rows|
    requires Filtered(df, parse).rows[j] == DatesParsed(df, parse).rows[i]
    ensures Matches(WithYear(df, parse).cols, WithYear(df, parse).rows[j], df, parse, i)
  {
    var t1 := DatesParsed(df, parse);
    var t3 := Filtered(df, parse);
    var t4 := DropAttributes(t3);
    var t5 := WithYear(df, parse);
    var attrs := AttributeCols(t3.cols);
    NotAttributes(t3.cols);
    DropKeyCells(t3, attrs, "DATE");
    forall c | c in t5.cols ensures Lookup(t5.cols, t5.rows[j], c) == Expected(df, parse, i, c) {
      assert Lookup(t5.cols, t5.rows[j], c) == Get(t5, j, c);
      assert Get(t3, j, "DATE") == Get(t1, i, "DATE");
      if c != "Year" {
        assert c in t4.cols;
        DropKeyCells(t3, attrs, c);
        assert Get(t3, j, c) == Get(t1, i, c);
      }
    }
  }

  /** Every row of the cleaned table carries the values of a surviving
      record. */
  lemma CleanSound(df: Table, parse: string -> Option<int>, k: nat)
    requires WellFormed(df) && CleanWeather(df, parse).Ok?
    requires k < |CleanWeather(df, parse).value.rows|
    ensures var r := CleanWeather(df, parse).value;
      exists i :: 0 <= i < |df.rows| && Survives(df, parse, i) && Matches(r.cols, r.rows[k], df, parse, i)
  {
    NotAttributes(df.cols);
    var t1 := DatesParsed(df, parse);
    var t3 := Filtered(df, parse);
    var t5 := WithYear(df, parse);
    var r := CleanWeather(df, parse).value;
    assert r == Where(t5, "Year", InWindow);
    WhereRows(t5, "Year", InWindow);
    var row := r.rows[k];
    assert row in r.rows;
    var j :| 0 <= j < |t5.rows| && t5.rows[j] == row;
    assert t3.rows[j] in t3.rows;
    FilteredRows(df, parse, t3.rows[j]);
    var i :| 0 <= i < |df.rows| && t3.rows[j] == t1.rows[i] && !ToDate(Get(df, i, "DATE"), parse).Null? &&
      ("Average_Temperature" in df.cols ==> !Get(df, i, "Average_Temperature").Null?);
    WithYearRow(df, parse, j, i);
    assert Lookup(t5.cols, row, "Year") == Expected(df, parse, i, "Year");
  }

  /** A surviving record's parsed row is among the filtered rows. */
  lemma FilteredIndex(df: Table, parse: string -> Option<int>, i: nat) returns (j: nat)
    requires WellFormed(df) && "DATE" in df.cols
    requires i < |df.rows| && Survives(df, parse, i)
    ensures j < |Filtered(df, parse).rows| && Filtered(df, parse).rows[j] == DatesParsed(df, parse).rows[i]
  {
    var t1 := DatesParsed(df, parse);
    var t3 := Filtered(df, parse);
    FilteredRows(df, parse, t1.rows[i]);
    j :| 0 <= j < |t3.rows| && t3.rows[j] == t1.rows[i];
  }

  /** Every surviving record has its row in the cleaned table. */
  lemma CleanComplete(df: Table, parse: string -> Option<int>, i: nat)
    requires WellFormed(df) && CleanWeather(df, parse).Ok?
    requires i < |df.rows| && Survives(df, parse, i)
    ensures var r := CleanWeather(df, parse).value;
      exists k :: 0 <= k < |r.rows| && Matches(r.cols, r.rows[k], df, parse, i)
  {
    NotAttributes(df.cols);
    var t5 := WithYear(df, parse);
    var r := CleanWeather(df, parse).value;
    assert r == Where(t5, "Year", InWindow);
    var j := FilteredIndex(df, parse, i);
    WithYearRow(df, parse, j, i);
    assert "Year" in t5.cols;
    assert Lookup(t5.cols, t5.rows[j], "Year") == Expected(df, parse, i, "Year");
    assert InWindow(Lookup(t5.cols, t5.rows[j], "Year"));
    KeepRowsAll(t5.cols, t5.rows, "Year", InWindow);
    assert t5.rows[j] in r.rows;
    var k :| 0 <= k < |r.rows| && r.rows[k] == t5.rows[j];
    assert r.cols == t5.cols;
    assert Matches(r.cols, r.rows[k], df, parse, i);
  }
}
