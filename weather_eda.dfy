/** The preparation and yearly summaries of the weather exploration script
    (backend/weather_data_files/.ipynb_checkpoints/weather_eda_analysis-checkpoint.py,
    from the load to the last summary): the GHCN element columns get readable names, tenths are
    turned into units, undated rows go, Year, Month and Average_Temperature
    are added, and the annual and monthly series behind the plots are
    computed. The plots themselves are not part of this model. */
module WeatherEda {
  import opened Wrappers
  import opened Stats
  import opened Calendar
  import opened Aggregate
  import opened Frames
  import opened Columns
  import opened Grouping

  // ----- renaming -----

  /** The renames, in the order the loop applies them. */
  const RenamePairs: seq<(string, string)> := [
    ("TMAX", "Max_Temperature"),
    ("TMIN", "Min_Temperature"),
    ("PRCP", "Precipitation"),
    ("SNOW", "Snowfall"),
    ("SNWD", "Snow_Depth")
  ]

  /** The name a column ends up with after the renames. */
  function NewName(c: string): string {
    if c == "TMAX" then "Max_Temperature"
    else if c == "TMIN" then "Min_Temperature"
    else if c == "PRCP" then "Precipitation"
    else if c == "SNOW" then "Snowfall"
    else if c == "SNWD" then "Snow_Depth"
    else c
  }

  /** One pass of the rename loop: rename when the column is there. */
  function RenameIfPresent(t: Table, from: string, to: string): (r: Table)
    ensures r.rows == t.rows && |r.cols| == |t.cols|
    ensures forall k :: 0 <= k < |t.cols| ==> r.cols[k] == if t.cols[k] == from then to else t.cols[k]
  {
    if from in t.cols then Rename(t, map[from := to]) else t
  }

  /** The rename loop over the first n pairs. */
  function RenamedAll(t: Table, pairs: seq<(string, string)>): (r: Table)
    ensures r.rows == t.rows && |r.cols| == |t.cols|
    decreases |pairs|
  {
    if pairs == [] then t
    else
      var p := pairs[|pairs| - 1];
      RenameIfPresent(RenamedAll(t, pairs[..|pairs| - 1]), p.0, p.1)
  }

  /** What the renames do to one name, pair after pair. */
  function NameAfter(c: string, pairs: seq<(string, string)>): string
    decreases |pairs|
  {
    if pairs == [] then c
    else
      var p := pairs[|pairs| - 1];
      var d := NameAfter(c, pairs[..|pairs| - 1]);
      if d == p.0 then p.1 else d
  }

  /** The loop renames each column on its own: a header position holds the
      name the pairs give its original name. */
  lemma {:induction false} RenamedAllCols(t: Table, pairs: seq<(string, string)>, k: nat)
    requires k < |t.cols|
    ensures RenamedAll(t, pairs).cols[k] == NameAfter(t.cols[k], pairs)
    decreases |pairs|
  {
    if pairs != [] {
      RenamedAllCols(t, pairs[..|pairs| - 1], k);
    }
  }

  /** The five renames in a row give each GHCN name its readable name and
      leave every other name alone; no new name is renamed again. */
  lemma NameAfterRenames(c: string)
    ensures NameAfter(c, RenamePairs) == NewName(c)
  {
    var ps := RenamePairs;
    assert ps[..1][..0] == [];
    assert ps[..2][..1] == ps[..1];
    assert ps[..3][..2] == ps[..2];
    assert ps[..4][..3] == ps[..3];
    assert ps[..5][..4] == ps[..4];
    assert ps[..5] == ps;
    assert ps[0] == ("TMAX", "Max_Temperature") && ps[1] == ("TMIN", "Min_Temperature");
    assert ps[2] == ("PRCP", "Precipitation") && ps[3] == ("SNOW", "Snowfall") && ps[4] == ("SNWD", "Snow_Depth");
    assert NameAfter(c, ps[..1][..0]) == c;
    var d1 := NameAfter(c, ps[..1]);
    assert d1 == if c == "TMAX" then "Max_Temperature" else c;
    var d2 := NameAfter(c, ps[..2]);
    assert d2 == if d1 == "TMIN" then "Min_Temperature" else d1;
    var d3 := NameAfter(c, ps[..3]);
    assert d3 == if d2 == "PRCP" then "Precipitation" else d2;
    var d4 := NameAfter(c, ps[..4]);
    assert d4 == if d3 == "SNOW" then "Snowfall" else d3;
    assert NameAfter(c, ps) == if d4 == "SNWD" then "Snow_Depth" else d4;
  }

  /** The GHCN names get their readable names, every other column keeps its
      own, and no cell moves: the values formerly under TMAX read back under
      Max_Temperature. */
  lemma RenamedHeader(t: Table)
    ensures var r := RenamedAll(t, RenamePairs);
      r.rows == t.rows && |r.cols| == |t.cols| &&
      forall k :: 0 <= k < |t.cols| ==> r.cols[k] == NewName(t.cols[k])
  {
    forall k | 0 <= k < |t.cols| ensures RenamedAll(t, RenamePairs).cols[k] == NewName(t.cols[k]) {
      RenamedAllCols(t, RenamePairs, k);
      NameAfterRenames(t.cols[k]);
    }
  }

  // ----- unit conversion -----

  /** Division by ten of a number; a missing value stays missing. */
  function Scale10(c: Cell): (r: Cell)
    ensures c.Num? ==> r == Num(c.x / 10.0)
    ensures !c.Num? ==> r == c
  {
    if c.Num? then Num(c.x / 10.0) else c
  }

  /** `pd.to_numeric(col, errors='coerce') / 10`. */
  function Tenths(parseNum: string -> Option<real>): Cell -> Cell {
    c => Scale10(ToNumber(c, parseNum))
  }

  /** `pd.to_numeric(col, errors='coerce')`. */
  function Numeric(parseNum: string -> Option<real>): Cell -> Cell {
    c => ToNumber(c, parseNum)
  }

  /** One pass of a conversion loop: convert the column when it is there. */
  function ConvertIfPresent(t: Table, c: string, f: Cell -> Cell): (r: Table)
    requires WellFormed(t)
    ensures WellFormed(r) && r.cols == t.cols && |r.rows| == |t.rows|
  {
    if c in t.cols then MapColumn(t, c, f) else t
  }

  /** A conversion loop over the named columns. */
  function ConvertAll(t: Table, cols: seq<string>, f: Cell -> Cell): (r: Table)
    requires WellFormed(t)
    ensures WellFormed(r) && r.cols == t.cols && |r.rows| == |t.rows|
    decreases |cols|
  {
    if cols == [] then t
    else ConvertIfPresent(ConvertAll(t, cols[..|cols| - 1], f), cols[|cols| - 1], f)
  }

  /** One conversion touches only its column. */
  lemma ConvertCell(t: Table, c: string, f: Cell -> Cell, i: nat, d: string)
    requires WellFormed(t) && i < |t.rows|
    ensures Get(ConvertIfPresent(t, c, f), i, d) == if d == c && c in t.cols then f(Get(t, i, c)) else Get(t, i, d)
  {
    if c in t.cols && d != c {
      PutKeepsOthers(t, c, seq(|t.rows|, j requires 0 <= j < |t.rows| => f(KeyCol(t, c)[j])), i, d);
    }
  }

  /** A conversion loop over distinct names converts each present one once
      and leaves the other columns alone. */
  lemma {:induction false} ConvertAllCells(t: Table, cols: seq<string>, f: Cell -> Cell, i: nat, c: string)
    requires WellFormed(t) && i < |t.rows|
    requires forall a, b :: 0 <= a < b < |cols| ==> cols[a] != cols[b]
    ensures Get(ConvertAll(t, cols, f), i, c) == if c in cols && c in t.cols then f(Get(t, i, c)) else Get(t, i, c)
    decreases |cols|
  {
    if cols != [] {
      var pre := cols[..|cols| - 1];
      var last := cols[|cols| - 1];
      assert forall d :: d in cols <==> d in pre || d == last;
      ConvertAllCells(t, pre, f, i, c);
      ConvertCell(ConvertAll(t, pre, f), last, f, i, c);
      assert c == last ==> c !in pre;
    }
  }

  /** The unit conversions and numeric coercions, in the script's order. */
  function Converted(t: Table, parseNum: string -> Option<real>): (r: Table)
    requires WellFormed(t)
    ensures WellFormed(r) && r.cols == t.cols && |r.rows| == |t.rows|
  {
    var temps := ConvertAll(t, ["Max_Temperature", "Min_Temperature"], Tenths(parseNum));
    var precip := ConvertAll(temps, ["Precipitation"], Tenths(parseNum));
    ConvertAll(precip, ["Snowfall", "Snow_Depth"], Numeric(parseNum))
  }

  /** Temperatures and precipitation are read as numbers and divided by ten;
      snowfall and snow depth are read as numbers but not scaled; every
      other column is left alone. */
  lemma ConvertedCells(t: Table, parseNum: string -> Option<real>, i: nat, c: string)
    requires WellFormed(t) && i < |t.rows| && c in t.cols
    ensures var v := Get(Converted(t, parseNum), i, c);
      var n := ToNumber(Get(t, i, c), parseNum);
      (c in ["Max_Temperature", "Min_Temperature", "Precipitation"] ==> v == Scale10(n)) &&
      (c in ["Snowfall", "Snow_Depth"] ==> v == n) &&
      (c !in ["Max_Temperature", "Min_Temperature", "Precipitation", "Snowfall", "Snow_Depth"] ==> v == Get(t, i, c))
  {
    var temps := ConvertAll(t, ["Max_Temperature", "Min_Temperature"], Tenths(parseNum));
    var precip := ConvertAll(temps, ["Precipitation"], Tenths(parseNum));
    ConvertAllCells(t, ["Max_Temperature", "Min_Temperature"], Tenths(parseNum), i, c);
    ConvertAllCells(temps, ["Precipitation"], Tenths(parseNum), i, c);
    ConvertAllCells(precip, ["Snowfall", "Snow_Depth"], Numeric(parseNum), i, c);
  }

  // ----- dates, Year, Month and the average temperature -----

  /** `pd.to_datetime(errors='coerce')` on DATE then `dropna(subset=['DATE'])`;
      without a DATE column the `dropna` raises KeyError. */
  function DatedRows(t: Table, parse: string -> Option<int>): (r: Outcome<Table>)
    requires WellFormed(t)
    ensures r.Err? <==> "DATE" !in t.cols
    ensures r.Ok? ==> WellFormed(r.value) && r.value.cols == t.cols && |r.value.rows| <= |t.rows|
    ensures r.Ok? ==> forall j :: 0 <= j < |r.value.rows| ==> Get(r.value, j, "DATE").Date?
  {
    if "DATE" !in t.cols then Err("KeyError: ['DATE']")
    else
      var p := MapColumn(t, "DATE", DateCoerce(parse));
      var d := DropMissing(p, "DATE");
      WhereRows(p, "DATE", Filled);
      assert forall j :: 0 <= j < |d.rows| ==> Get(d, j, "DATE").Date? by {
        forall j | 0 <= j < |d.rows| ensures Get(d, j, "DATE").Date? {
          assert d.rows[j] in p.rows;
          var m :| 0 <= m < |p.rows| && p.rows[m] == d.rows[j];
          assert Get(p, m, "DATE") == ToDate(Get(t, m, "DATE"), parse);
        }
      }
      Ok(d)
  }

  /** A row survives exactly when its DATE parses, and it survives with the
      parsed day in place. */
  lemma DatedRowsFacts(t: Table, parse: string -> Option<int>, i: nat)
    requires WellFormed(t) && "DATE" in t.cols && i < |t.rows|
    ensures var c := ToDate(Get(t, i, "DATE"), parse);
      c.Date? <==> t.rows[i][Find(t.cols, "DATE") := c] in DatedRows(t, parse).value.rows
  {
    var p := MapColumn(t, "DATE", DateCoerce(parse));
    WhereRows(p, "DATE", Filled);
    var k := Find(t.cols, "DATE");
    assert p.rows[i] == t.rows[i][k := ToDate(Get(t, i, "DATE"), parse)];
    assert Lookup(p.cols, p.rows[i], "DATE") == ToDate(Get(t, i, "DATE"), parse);
  }

  /** `.dt.year` of a DATE cell. */
  function YearCell(c: Cell): Cell {
    if c.Date? then Num(Year(c.day) as real) else Null
  }

  /** `.dt.month` of a DATE cell. */
  function MonthCell(c: Cell): Cell {
    if c.Date? then Num(Month(c.day) as real) else Null
  }

  /** `df[['Max_Temperature', 'Min_Temperature']].mean(axis=1)` on one row:
      the mean of whichever of the two is a number. */
  function RowMean(a: Cell, b: Cell): (r: Cell)
    ensures a.Num? && b.Num? ==> r == Num((a.x + b.x) / 2.0)
    ensures a.Num? && !b.Num? ==> r == a
    ensures !a.Num? && b.Num? ==> r == b
    ensures !a.Num? && !b.Num? ==> r == Null
  {
    if a.Num? && b.Num? then Num((a.x + b.x) / 2.0)
    else if a.Num? then a
    else if b.Num? then b
    else Null
  }

  /** The `dt.year` and `dt.month` columns: Year and Month from DATE. */
  function WithYearMonth(t: Table): (r: Table)
    requires WellFormed(t)
    ensures WellFormed(r) && |r.rows| == |t.rows|
    ensures forall c :: c in t.cols ==> c in r.cols
  {
    var y := Derive(t, "DATE", "Year", YearCell);
    Derive(y, "DATE", "Month", MonthCell)
  }

  /** The Average_Temperature column: the mean temperature when both temperatures exist. */
  function WithAverage(t: Table): (r: Table)
    requires WellFormed(t)
    ensures WellFormed(r) && |r.rows| == |t.rows|
  {
    if "Max_Temperature" in t.cols && "Min_Temperature" in t.cols then
      Derive2(t, "Max_Temperature", "Min_Temperature", "Average_Temperature", RowMean)
    else t
  }

  function Tagged(t: Table): (r: Table)
    requires WellFormed(t)
    ensures WellFormed(r) && |r.rows| == |t.rows|
  {
    WithAverage(WithYearMonth(t))
  }

  /** Year and Month are the calendar year and month of the row's date; the
      other columns stay. */
  lemma YearMonthCells(t: Table, i: nat)
    requires WellFormed(t) && i < |t.rows| && Get(t, i, "DATE").Date?
    ensures var r := WithYearMonth(t);
      var z := Get(t, i, "DATE").day;
      Get(r, i, "Year") == Num(Year(z) as real) && Get(r, i, "Month") == Num(Month(z) as real) &&
      forall c :: c != "Year" && c != "Month" ==> Get(r, i, c) == Get(t, i, c)
  {
    var y := Derive(t, "DATE", "Year", YearCell);
    assert Get(y, i, "DATE") == Get(t, i, "DATE");
  }

  /** The average temperature, when both temperatures exist, is the mean of
      the ones present; the other columns stay. */
  lemma AverageCells(t: Table, i: nat)
    requires WellFormed(t) && i < |t.rows|
    ensures var r := WithAverage(t);
      ("Max_Temperature" in t.cols && "Min_Temperature" in t.cols ==>
        Get(r, i, "Average_Temperature") == RowMean(Get(t, i, "Max_Temperature"), Get(t, i, "Min_Temperature"))) &&
      forall c :: c != "Average_Temperature" ==> Get(r, i, c) == Get(t, i, c)
  {
  }

  /** Both steps together, in terms of the dated table. */
  lemma TaggedCells(t: Table, i: nat)
    requires WellFormed(t) && i < |t.rows| && Get(t, i, "DATE").Date?
    ensures var r := Tagged(t);
      var z := Get(t, i, "DATE").day;
      Get(r, i, "Year") == Num(Year(z) as real) && Get(r, i, "Month") == Num(Month(z) as real) &&
      Get(r, i, "DATE") == Get(t, i, "DATE") &&
      ("Max_Temperature" in t.cols && "Min_Temperature" in t.cols ==>
        Get(r, i, "Average_Temperature") == RowMean(Get(t, i, "Max_Temperature"), Get(t, i, "Min_Temperature")))
  {
    var m := WithYearMonth(t);
    YearMonthCells(t, i);
    AverageCells(m, i);
    assert Get(m, i, "Max_Temperature") == Get(t, i, "Max_Temperature");
    assert Get(m, i, "Min_Temperature") == Get(t, i, "Min_Temperature");
  }

  // ----- the yearly and monthly series -----

  /** The group of a Year cell: the year it holds. */
  function YearKey(c: Cell): (k: Option<int>)
    ensures k.Some? <==> c.Num?
  {
    if c.Num? then Some(c.x.Floor) else None
  }

  /** The (Year, Month) group of a DATE cell, as one month key. */
  function MonthGroup(c: Cell): (k: Option<int>)
    ensures k.Some? <==> c.Date?
  {
    if c.Date? then Some(MonthKey(c.day)) else None
  }

  /** A year written in a Year cell groups under that year. */
  lemma YearKeyOfYear(y: int)
    ensures YearKey(Num(y as real)) == Some(y)
  {
  }

  /** An aggregate that is only computed when its column exists. */
  function WhenPresent(present: bool, g: Outcome<seq<Obs>>): (r: Outcome<Option<seq<Obs>>>)
    ensures !present ==> r == Ok(None)
    ensures present && g.Ok? ==> r == Ok(Some(g.value))
    ensures present && g.Err? ==> r.Err?
  {
    if !present then Ok(None)
    else if g.Err? then Err(g.msg)
    else Ok(Some(g.value))
  }

  /** The four series behind the plots, each missing when its column is. */
  datatype Series = Series(
    annualTemperature: Option<seq<Obs>>,
    annualPrecipitation: Option<seq<Obs>>,
    annualSnowfall: Option<seq<Obs>>,
    monthlyTemperature: Option<seq<Obs>>)

  /** The summaries behind the plots: yearly mean temperature, yearly precipitation and
      snowfall totals, and the mean temperature per (year, month). */
  function Analyses(t: Table): Outcome<Series> {
    var hasAvg := "Average_Temperature" in t.cols;
    match WhenPresent(hasAvg, GroupedMean(t, "Year", YearKey, "Average_Temperature"))
    case Err(m) => Err(m)
    case Ok(temp) =>
      match WhenPresent("Precipitation" in t.cols, GroupedSum(t, "Year", YearKey, "Precipitation"))
      case Err(m) => Err(m)
      case Ok(precip) =>
        match WhenPresent("Snowfall" in t.cols, GroupedSum(t, "Year", YearKey, "Snowfall"))
        case Err(m) => Err(m)
        case Ok(snow) =>
          match WhenPresent(hasAvg, GroupedMean(t, "DATE", MonthGroup, "Average_Temperature"))
          case Err(m) => Err(m)
          case Ok(monthly) => Ok(Series(temp, precip, snow, monthly))
  }

  /** The annual temperature is a per-year mean while the annual
      precipitation is a per-year sum: each series has one entry per year
      that occurs, holding the mean (resp. the total) of that year's
      numbers. */
  lemma AnnualSeries(t: Table)
    requires Analyses(t).Ok?
    ensures var s := Analyses(t).value;
      (s.annualTemperature.Some? <==> "Average_Temperature" in t.cols) &&
      (s.annualPrecipitation.Some? <==> "Precipitation" in t.cols) &&
      (s.annualTemperature.Some? ==>
        var r := s.annualTemperature.value;
        (forall k :: k in Keys(r) <==> exists i :: 0 <= i < |t.rows| && YearKey(Get(t, i, "Year")) == Some(k)) &&
        forall i :: 0 <= i < |r| ==> r[i].val == MeanSkipNa(GroupValues(t.cols, t.rows, "Year", YearKey, "Average_Temperature", r[i].key))) &&
      (s.annualPrecipitation.Some? ==>
        var r := s.annualPrecipitation.value;
        (forall k :: k in Keys(r) <==> exists i :: 0 <= i < |t.rows| && YearKey(Get(t, i, "Year")) == Some(k)) &&
        forall i :: 0 <= i < |r| ==> r[i].val == Some(SumSkipNa(GroupValues(t.cols, t.rows, "Year", YearKey, "Precipitation", r[i].key))))
  {
    if "Average_Temperature" in t.cols {
      GroupedMeanFacts(t, "Year", YearKey, "Average_Temperature");
    }
    if "Precipitation" in t.cols {
      GroupedSumFacts(t, "Year", YearKey, "Precipitation");
    }
  }

  /** The annual snowfall is a per-year sum like the precipitation, and the
      monthly temperature has one entry per calendar month that occurs,
      holding the mean of that month's numbers. */
  lemma SnowAndMonthlySeries(t: Table)
    requires Analyses(t).Ok?
    ensures var s := Analyses(t).value;
      (s.annualSnowfall.Some? <==> "Snowfall" in t.cols) &&
      (s.monthlyTemperature.Some? <==> "Average_Temperature" in t.cols) &&
      (s.annualSnowfall.Some? ==>
        var r := s.annualSnowfall.value;
        (forall k :: k in Keys(r) <==> exists i :: 0 <= i < |t.rows| && YearKey(Get(t, i, "Year")) == Some(k)) &&
        forall i :: 0 <= i < |r| ==> r[i].val == Some(SumSkipNa(GroupValues(t.cols, t.rows, "Year", YearKey, "Snowfall", r[i].key)))) &&
      (s.monthlyTemperature.Some? ==>
        var r := s.monthlyTemperature.value;
        (forall k :: k in Keys(r) <==> exists i :: 0 <= i < |t.rows| && MonthGroup(Get(t, i, "DATE")) == Some(k)) &&
        forall i :: 0 <= i < |r| ==> r[i].val == MeanSkipNa(GroupValues(t.cols, t.rows, "DATE", MonthGroup, "Average_Temperature", r[i].key)))
  {
    if "Snowfall" in t.cols {
      GroupedSumFacts(t, "Year", YearKey, "Snowfall");
    }
    if "Average_Temperature" in t.cols {
      GroupedMeanFacts(t, "DATE", MonthGroup, "Average_Temperature");
    }
  }

  // ----- the script -----

  datatype Outcomes = Outcomes(table: Table, series: Series)

  /** The whole exploration, from the loaded table to the prepared table and the
      series behind the plots. */
  function Explore(df: Table, parseNum: string -> Option<real>, parse: string -> Option<int>): Outcome<Outcomes>
    requires WellFormed(df)
  {
    var renamed := RenamedAll(df, RenamePairs);
    var converted := Converted(renamed, parseNum);
    match DatedRows(converted, parse)
    case Err(m) => Err(m)
    case Ok(dated) =>
      var t := Tagged(dated);
      match Analyses(t)
      case Err(m) => Err(m)
      case Ok(s) => Ok(Outcomes(t, s))
  }

  /** The renames keep DATE, so the script stops at the `dropna` when the
      loaded table has no DATE column. */
  lemma ExploreNeedsDate(df: Table, parseNum: string -> Option<real>, parse: string -> Option<int>)
    requires WellFormed(df) && "DATE" !in df.cols
    ensures Explore(df, parseNum, parse) == Err("KeyError: ['DATE']")
  {
    var renamed := RenamedAll(df, RenamePairs);
    RenamedHeader(df);
    assert "DATE" !in renamed.cols;
  }

  /** In the prepared table every row carries a day, and its Year and Month
      are that day's. */
  lemma ExploreDated(df: Table, parseNum: string -> Option<real>, parse: string -> Option<int>, i: nat)
    requires WellFormed(df) && Explore(df, parseNum, parse).Ok?
    requires i < |Explore(df, parseNum, parse).value.table.rows|
    ensures var t := Explore(df, parseNum, parse).value.table;
      Get(t, i, "DATE").Date? &&
      Get(t, i, "Year") == Num(Year(Get(t, i, "DATE").day) as real) &&
      Get(t, i, "Month") == Num(Month(Get(t, i, "DATE").day) as real)
  {
    var converted := Converted(RenamedAll(df, RenamePairs), parseNum);
    var dated := DatedRows(converted, parse).value;
    assert Explore(df, parseNum, parse).value.table == Tagged(dated);
    TaggedCells(dated, i);
  }

  /** The DataFrame the script edits in place. */
  class WeatherFrame {
    var table: Table

    constructor (t: Table)
      ensures table == t
    {
      table := t;
    }

    /** `if old in df.columns: df.rename(columns={old: new}, inplace=True)` */
    method RenameColumn(from: string, to: string)
      modifies this
      ensures table == RenameIfPresent(old(table), from, to)
    {
      if from in table.cols {
        table := Rename(table, map[from := to]);
      }
    }

    /** `if col in df.columns: df[col] = f(df[col])` */
    method ConvertColumn(c: string, f: Cell -> Cell)
      requires WellFormed(table)
      modifies this
      ensures table == ConvertIfPresent(old(table), c, f)
    {
      if c in table.cols {
        table := MapColumn(table, c, f);
      }
    }

    /** The DATE conversion and `dropna(subset=['DATE'], inplace=True)`. */
    method DropUndated(parse: string -> Option<int>)
      requires WellFormed(table) && "DATE" in table.cols
      modifies this
      ensures DatedRows(old(table), parse) == Ok(table)
    {
      table := MapColumn(table, "DATE", DateCoerce(parse));
      table := DropMissing(table, "DATE");
    }

    /** Year, Month and Average_Temperature. */
    method AddColumns()
      requires WellFormed(table)
      modifies this
      ensures table == Tagged(old(table))
    {
      table := Derive(table, "DATE", "Year", YearCell);
      table := Derive(table, "DATE", "Month", MonthCell);
      assert table == WithYearMonth(old(table));
      if "Max_Temperature" in table.cols && "Min_Temperature" in table.cols {
        table := Derive2(table, "Max_Temperature", "Min_Temperature", "Average_Temperature", RowMean);
      }
    }
  }

  /** The conversion loop of one list of columns, in place. */
  method ConvertEach(frame: WeatherFrame, cols: seq<string>, f: Cell -> Cell)
    requires WellFormed(frame.table)
    modifies frame
    ensures frame.table == ConvertAll(old(frame.table), cols, f)
  {
    ghost var start := frame.table;
    for i := 0 to |cols|
      invariant frame.table == ConvertAll(start, cols[..i], f)
    {
      assert cols[..i + 1][..i] == cols[..i];
      frame.ConvertColumn(cols[i], f);
    }
    assert cols[..|cols|] == cols;
  }

  /** The script's steps on one DataFrame object. */
  method RunExploration(df: Table, parseNum: string -> Option<real>, parse: string -> Option<int>) returns (r: Outcome<Outcomes>)
    requires WellFormed(df)
    ensures r == Explore(df, parseNum, parse)
  {
    var frame := new WeatherFrame(df);
    for i := 0 to |RenamePairs|
      invariant frame.table == RenamedAll(df, RenamePairs[..i])
    {
      assert RenamePairs[..i + 1][..i] == RenamePairs[..i];
      frame.RenameColumn(RenamePairs[i].0, RenamePairs[i].1);
    }
    assert RenamePairs[..|RenamePairs|] == RenamePairs;
    ConvertEach(frame, ["Max_Temperature", "Min_Temperature"], Tenths(parseNum));
    ConvertEach(frame, ["Precipitation"], Tenths(parseNum));
    ConvertEach(frame, ["Snowfall", "Snow_Depth"], Numeric(parseNum));
    if "DATE" !in frame.table.cols {
      return Err("KeyError: ['DATE']");
    }
    frame.DropUndated(parse);
    frame.AddColumns();
    var s := Analyses(frame.table);
    if s.Err? {
      return Err(s.msg);
    }
    r := Ok(Outcomes(frame.table, s.value));
  }
}
