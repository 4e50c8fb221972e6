/** The second weather-cleaning pass (backend/weather_data_files/weather_cleaning_v2.py):
    read the combined file with DATE parsed, drop undated rows, fill the gaps
    of every numeric column with that column's median, then add the derived
    columns TEMP_RANGE_C, RAIN_INDICATOR, the 7-row rolling means, SEASON,
    WEEKDAY and IS_WEEKEND. */
module WeatherCleaningV2 {
  import opened Wrappers
  import opened Stats
  import opened Calendar
  import opened Frames
  import opened Columns
  import opened PySeq

  // ----- reading and dropping undated rows -----

  /** `read_csv(parse_dates=["DATE"])` then `dropna(subset=["DATE"])`: the
      DATE column must exist and every filled cell of it must parse. */
  function ReadDated(df: Table, parse: string -> Option<int>): (r: Outcome<Table>)
    requires WellFormed(df)
    ensures r.Err? <==> "DATE" !in df.cols || StrictDates(KeyCol(df, "DATE"), parse).Err?
    ensures r.Ok? ==> WellFormed(r.value) && r.value.cols == df.cols && |r.value.rows| <= |df.rows|
    ensures r.Ok? ==> forall i :: 0 <= i < |r.value.rows| ==> Get(r.value, i, "DATE").Date?
  {
    if "DATE" !in df.cols then Err("Missing column provided to 'parse_dates': 'DATE'")
    else
      match StrictDates(KeyCol(df, "DATE"), parse)
      case Err(m) => Err(m)
      case Ok(cells) =>
        var p := PutColumn(df, "DATE", cells);
        var t := DropMissing(p, "DATE");
        WhereRows(p, "DATE", Filled);
        assert forall i :: 0 <= i < |t.rows| ==> Get(t, i, "DATE").Date? by {
          forall i | 0 <= i < |t.rows| ensures Get(t, i, "DATE").Date? {
            assert t.rows[i] in p.rows;
            var j :| 0 <= j < |p.rows| && p.rows[j] == t.rows[i];
            assert Get(p, j, "DATE") == cells[j] == ToDate(KeyCol(df, "DATE")[j], parse);
          }
        }
        Ok(t)
  }

  /** A row of the read file survives the date step exactly when its DATE
      cell parses to a day, and it survives with that day in place. */
  lemma ReadDatedRows(df: Table, parse: string -> Option<int>, i: nat)
    requires WellFormed(df) && i < |df.rows| && ReadDated(df, parse).Ok?
    ensures var c := ToDate(Get(df, i, "DATE"), parse);
      c.Date? <==> df.rows[i][Find(df.cols, "DATE") := c] in ReadDated(df, parse).value.rows
  {
    var cells := StrictDates(KeyCol(df, "DATE"), parse).value;
    var p := PutColumn(df, "DATE", cells);
    var k := Find(df.cols, "DATE");
    WhereRows(p, "DATE", Filled);
    assert p.rows[i] == df.rows[i][k := cells[i]];
    assert Lookup(p.cols, p.rows[i], "DATE") == cells[i];
    var c := ToDate(Get(df, i, "DATE"), parse);
    assert cells[i] == c;
  }

  // ----- median fill -----

  /** The numbers of one column, with missing (and non-numeric) cells as None. */
  function ColumnValues(t: Table, c: string): (vs: seq<Option<real>>)
    ensures |vs| == |t.rows|
    ensures forall i :: 0 <= i < |t.rows| ==> vs[i] == NumOf(Get(t, i, c))
  {
    seq(|t.rows|, i requires 0 <= i < |t.rows| => NumOf(Get(t, i, c)))
  }

  /** `select_dtypes(include=[np.number]).columns`, decided on the file as
      read: the columns other than DATE whose cells are all numbers or
      missing, in header order. */
  function NumericCols(df: Table, cols: seq<string>): (r: seq<string>)
    ensures forall c :: c in r <==> c in cols && c != "DATE" && NumericColumn(df, c)
    ensures |r| <= |cols|
  {
    if cols == [] then []
    else
      var rest := NumericCols(df, cols[1..]);
      assert forall c :: c in cols <==> c == cols[0] || c in cols[1..];
      if cols[0] != "DATE" && NumericColumn(df, cols[0]) then [cols[0]] + rest else rest
  }

  /** The numeric columns keep the header's lack of duplicates. */
  lemma {:induction false} NumericColsDistinct(df: Table, cols: seq<string>)
    requires DistinctNames(cols)
    ensures DistinctNames(NumericCols(df, cols))
  {
    if cols != [] {
      assert DistinctNames(cols[1..]) by {
        forall a, b | 0 <= a < b < |cols[1..]| ensures cols[1..][a] != cols[1..][b] {
          assert cols[1..][a] == cols[a + 1] && cols[1..][b] == cols[b + 1];
        }
      }
      NumericColsDistinct(df, cols[1..]);
      assert cols[0] !in cols[1..];
    }
  }

  predicate DistinctNames(cols: seq<string>) {
    forall a, b :: 0 <= a < b < |cols| ==> cols[a] != cols[b]
  }

  /** `fillna(m)` on one cell: a missing cell takes m when m exists. */
  function Fill(m: Option<real>, c: Cell): Cell {
    if c.Null? && m.Some? then Num(m.value) else c
  }

  function FillWith(m: Option<real>): Cell -> Cell {
    c => Fill(m, c)
  }

  /** `df[c] = df[c].fillna(df[c].median())`. */
  function FillMedian(t: Table, c: string): (r: Table)
    requires WellFormed(t) && c in t.cols
    ensures WellFormed(r) && r.cols == t.cols && |r.rows| == |t.rows|
  {
    Derive(t, c, c, FillWith(MedianSkipNa(ColumnValues(t, c))))
  }

  /** One fill changes only its own column. */
  lemma FillMedianCell(t: Table, c: string, i: nat, d: string)
    requires WellFormed(t) && c in t.cols && i < |t.rows|
    ensures Get(FillMedian(t, c), i, d) ==
      if d == c then Fill(MedianSkipNa(ColumnValues(t, c)), Get(t, i, c)) else Get(t, i, d)
  {
  }

  /** The fill applied to the columns in order, each median taken after the
      earlier columns were filled. */
  function FilledAll(t: Table, cols: seq<string>): (r: Table)
    requires WellFormed(t) && forall c :: c in cols ==> c in t.cols
    ensures WellFormed(r) && r.cols == t.cols && |r.rows| == |t.rows|
    decreases |cols|
  {
    if cols == [] then t
    else FillMedian(FilledAll(t, cols[..|cols| - 1]), cols[|cols| - 1])
  }

  /** The loop over the numeric columns, filling each in place. */
  method FillMedians(t: Table, cols: seq<string>) returns (r: Table)
    requires WellFormed(t) && forall c :: c in cols ==> c in t.cols
    ensures r == FilledAll(t, cols)
  {
    r := t;
    for i := 0 to |cols|
      invariant r == FilledAll(t, cols[..i])
    {
      assert cols[..i + 1][..i] == cols[..i];
      var m := MedianSkipNa(ColumnValues(r, cols[i]));
      r := Derive(r, cols[i], cols[i], FillWith(m));
    }
    assert cols[..|cols|] == cols;
  }

  /** Filling the columns one after the other is the same as filling each
      with the median of its own original values: a filled column is left
      alone by the later fills, and a column not in the list is never
      touched. */
  lemma {:induction false} FilledAllCells(t: Table, cols: seq<string>, i: nat, c: string)
    requires WellFormed(t) && (forall c :: c in cols ==> c in t.cols) && DistinctNames(cols)
    requires i < |t.rows|
    ensures c !in cols ==> Get(FilledAll(t, cols), i, c) == Get(t, i, c)
    ensures c in cols ==> Get(FilledAll(t, cols), i, c) == Fill(MedianSkipNa(ColumnValues(t, c)), Get(t, i, c))
    decreases |cols|, 0
  {
    if cols != [] {
      var n := |cols| - 1;
      var pre := cols[..n];
      var last := cols[n];
      assert DistinctNames(pre);
      assert forall d :: d in cols <==> d in pre || d == last;
      var u := FilledAll(t, pre);
      FillMedianCell(u, last, i, c);
      if c == last {
        assert c !in pre;
        FilledUntouched(t, pre, c);
        FilledAllCells(t, pre, i, c);
      } else {
        FilledAllCells(t, pre, i, c);
      }
    }
  }

  /** A column not in the list keeps all its values. */
  lemma {:induction false} FilledUntouched(t: Table, cols: seq<string>, c: string)
    requires WellFormed(t) && (forall c :: c in cols ==> c in t.cols) && DistinctNames(cols)
    requires c !in cols
    ensures ColumnValues(FilledAll(t, cols), c) == ColumnValues(t, c)
    decreases |cols|, 1
  {
    var u := FilledAll(t, cols);
    forall j | 0 <= j < |t.rows| ensures Get(u, j, c) == Get(t, j, c) {
      FilledAllCells(t, cols, j, c);
    }
  }

  /** The median of a column with any number exists and lies between two
      of its numbers. */
  lemma MedianOfValues(vs: seq<Option<real>>, j: nat)
    requires j < |vs| && vs[j].Some?
    ensures MedianSkipNa(vs).Some?
    ensures exists a, b :: Brackets(vs, a, b, MedianSkipNa(vs).value)
  {
    PresentElements(vs);
    var p := Present(vs);
    assert vs[j].value in p;
    var m := Median(p);
    MedianBetween(p);
    var x, y :| 0 <= x < |p| && 0 <= y < |p| && p[x] <= m <= p[y];
    assert Some(p[x]) in vs && Some(p[y]) in vs;
    var a :| 0 <= a < |vs| && vs[a] == Some(p[x]);
    var b :| 0 <= b < |vs| && vs[b] == Some(p[y]);
    assert Brackets(vs, a, b, m);
  }

  /** Values a and b of the column are numbers with vs[a] <= m <= vs[b]. */
  predicate Brackets(vs: seq<Option<real>>, a: int, b: int, m: real) {
    0 <= a < |vs| && 0 <= b < |vs| && vs[a].Some? && vs[b].Some? && vs[a].value <= m <= vs[b].value
  }

  /** What the fill does to one cell of a listed column: a number stays, and
      a missing cell becomes the median of the column's numbers when it has
      any, a value lying between two of them. */
  lemma FillCell(t: Table, cols: seq<string>, i: nat, c: string)
    requires WellFormed(t) && (forall c :: c in cols ==> c in t.cols) && DistinctNames(cols)
    requires i < |t.rows| && c in cols
    ensures Get(t, i, c).Num? ==> Get(FilledAll(t, cols), i, c) == Get(t, i, c)
    ensures Get(t, i, c).Null? && (exists j :: 0 <= j < |t.rows| && Get(t, j, c).Num?) ==>
      var v := Get(FilledAll(t, cols), i, c);
      v.Num? && exists a, b :: Brackets(ColumnValues(t, c), a, b, v.x)
  {
    FilledAllCells(t, cols, i, c);
    if Get(t, i, c).Null? && (exists j :: 0 <= j < |t.rows| && Get(t, j, c).Num?) {
      var j :| 0 <= j < |t.rows| && Get(t, j, c).Num?;
      MedianOfValues(ColumnValues(t, c), j);
    }
  }

  /** After the fill, a listed column that holds any number has no gaps. */
  lemma FillLeavesNoGaps(t: Table, cols: seq<string>, c: string, j: nat)
    requires WellFormed(t) && (forall c :: c in cols ==> c in t.cols) && DistinctNames(cols)
    requires c in cols && j < |t.rows| && Get(t, j, c).Num?
    ensures forall i :: 0 <= i < |t.rows| ==> !Get(FilledAll(t, cols), i, c).Null?
  {
    var vs := ColumnValues(t, c);
    MedianOfValues(vs, j);
    forall i | 0 <= i < |t.rows| ensures !Get(FilledAll(t, cols), i, c).Null? {
      FilledAllCells(t, cols, i, c);
    }
  }

  // ----- temperature range and rain flag -----

  /** `TMAX_C - TMIN_C` on one row: missing when either side is. */
  function Minus(a: Cell, b: Cell): (r: Cell)
    ensures a.Num? && b.Num? ==> r == Num(a.x - b.x)
    ensures !(a.Num? && b.Num?) ==> r.Null?
  {
    if a.Num? && b.Num? then Num(a.x - b.x) else Null
  }

  /** `df["TEMP_RANGE_C"] = df["TMAX_C"] - df["TMIN_C"]` when both columns
      exist; text in either column makes the subtraction fail. */
  function TempRange(t: Table): (r: Outcome<Table>)
    requires WellFormed(t)
    ensures r.Err? <==>
      ("TMAX_C" in t.cols && "TMIN_C" in t.cols && !(NumericColumn(t, "TMAX_C") && NumericColumn(t, "TMIN_C")))
    ensures ("TMAX_C" !in t.cols || "TMIN_C" !in t.cols) ==> r == Ok(t)
    ensures r.Ok? ==> WellFormed(r.value) && |r.value.rows| == |t.rows|
    ensures r.Ok? && "TMAX_C" in t.cols && "TMIN_C" in t.cols ==>
      "TEMP_RANGE_C" in r.value.cols &&
      forall i :: 0 <= i < |t.rows| ==>
        (Get(t, i, "TMAX_C").Num? && Get(t, i, "TMIN_C").Num? ==>
          Get(r.value, i, "TEMP_RANGE_C") == Num(Get(t, i, "TMAX_C").x - Get(t, i, "TMIN_C").x)) &&
        (Get(t, i, "TMAX_C").Null? || Get(t, i, "TMIN_C").Null? ==> Get(r.value, i, "TEMP_RANGE_C").Null?)
    ensures r.Ok? ==> forall i, c :: 0 <= i < |t.rows| && c != "TEMP_RANGE_C" ==> Get(r.value, i, c) == Get(t, i, c)
  {
    if "TMAX_C" in t.cols && "TMIN_C" in t.cols then
      if !NumericColumn(t, "TMAX_C") || !NumericColumn(t, "TMIN_C") then
        Err("unsupported operand type(s) for -: 'str' and 'float'")
      else Ok(Derive2(t, "TMAX_C", "TMIN_C", "TEMP_RANGE_C", Minus))
    else Ok(t)
  }

  /** `(PRCP_mm > 0).astype(int)` on one cell: a missing value compares false. */
  function RainFlag(c: Cell): (r: Cell)
    ensures r == Num(1.0) <==> c.Num? && c.x > 0.0
    ensures r == Num(0.0) <==> !(c.Num? && c.x > 0.0)
  {
    if c.Num? && c.x > 0.0 then Num(1.0) else Num(0.0)
  }

  /** `df["RAIN_INDICATOR"] = (df["PRCP_mm"] > 0).astype(int)` when PRCP_mm
      exists; text in it makes the comparison fail. */
  function RainIndicator(t: Table): (r: Outcome<Table>)
    requires WellFormed(t)
    ensures r.Err? <==> "PRCP_mm" in t.cols && !NumericColumn(t, "PRCP_mm")
    ensures "PRCP_mm" !in t.cols ==> r == Ok(t)
    ensures r.Ok? && "PRCP_mm" in t.cols ==>
      WellFormed(r.value) && |r.value.rows| == |t.rows| &&
      forall i :: 0 <= i < |t.rows| ==>
        (Get(r.value, i, "RAIN_INDICATOR") == Num(1.0) <==> Get(t, i, "PRCP_mm").Num? && Get(t, i, "PRCP_mm").x > 0.0) &&
        (Get(r.value, i, "RAIN_INDICATOR") == Num(1.0) || Get(r.value, i, "RAIN_INDICATOR") == Num(0.0))
    ensures r.Ok? ==> forall i, c :: 0 <= i < |t.rows| && c != "RAIN_INDICATOR" ==> Get(r.value, i, c) == Get(t, i, c)
  {
    if "PRCP_mm" in t.cols then
      if !NumericColumn(t, "PRCP_mm") then Err("'>' not supported between instances of 'str' and 'int'")
      else Ok(Derive(t, "PRCP_mm", "RAIN_INDICATOR", RainFlag))
    else Ok(t)
  }

  // ----- rolling means -----

  /** The rows the 7-row window ending at row i covers. */
  function Window(vs: seq<Option<real>>, i: nat): (w: seq<Option<real>>)
    requires i < |vs|
    ensures |w| == Min(i + 1, 7)
    ensures forall k :: 0 <= k < |w| ==> w[k] == vs[Max(0, i - 6) + k]
  {
    vs[Max(0, i - 6)..i + 1]
  }

  /** `rolling(window=7, min_periods=1).mean()` at row i: the mean of the
      numbers in the window, missing when the window holds none. */
  function RollCell(vs: seq<Option<real>>, i: nat): Cell
    requires i < |vs|
  {
    match MeanSkipNa(Window(vs, i))
    case Some(m) => Num(m)
    case None => Null
  }

  /** The rolling mean of one column, row by row. */
  function Rolling(t: Table, c: string): (cells: seq<Cell>)
    ensures |cells| == |t.rows|
  {
    var vs := ColumnValues(t, c);
    seq(|t.rows|, i requires 0 <= i < |t.rows| => RollCell(vs, i))
  }

  /** A rolling cell is missing exactly when its whole window is; otherwise
      it is the mean of the window's numbers, lying between the smallest
      and the largest of them. */
  lemma RollCellFacts(vs: seq<Option<real>>, i: nat, lo: real, hi: real)
    requires i < |vs|
    requires forall k :: Max(0, i - 6) <= k <= i && vs[k].Some? ==> lo <= vs[k].value <= hi
    ensures RollCell(vs, i).Null? <==> forall k :: Max(0, i - 6) <= k <= i ==> vs[k].None?
    ensures RollCell(vs, i).Num? ==> lo <= RollCell(vs, i).x <= hi
    ensures (forall k :: Max(0, i - 6) <= k <= i ==> vs[k].Some?) ==>
      RollCell(vs, i) == Num(Mean(Present(Window(vs, i))))
  {
    var w := Window(vs, i);
    MeanSkipNaMissing(w);
    forall k | Max(0, i - 6) <= k <= i ensures vs[k] == w[k - Max(0, i - 6)] {
    }
    MeanSkipNaBounds(w, lo, hi);
  }

  const RollingFeatures: seq<string> := ["TMAX_C", "TMIN_C", "TAVG_C", "PRCP_mm"]

  /** The name of the rolling column of c. */
  function RollName(c: string): (n: string)
    ensures EndsWith(n, "_ROLL7")
  {
    var n := c + "_ROLL7";
    assert n[|n| - 6..] == "_ROLL7";
    n
  }

  /** One step of the rolling loop: skip an absent column, fail on text. */
  function AddRoll(t: Table, c: string): (r: Outcome<Table>)
    requires WellFormed(t)
    ensures r.Err? <==> c in t.cols && !NumericColumn(t, c)
    ensures c !in t.cols ==> r == Ok(t)
    ensures r.Ok? ==> WellFormed(r.value) && |r.value.rows| == |t.rows|
    ensures r.Ok? && c in t.cols ==>
      forall i :: 0 <= i < |t.rows| ==> Get(r.value, i, RollName(c)) == RollCell(ColumnValues(t, c), i)
  {
    if c !in t.cols then Ok(t)
    else if !NumericColumn(t, c) then Err("No numeric types to aggregate")
    else Ok(PutColumn(t, RollName(c), Rolling(t, c)))
  }

  /** The rolling loop over the columns, in order, stopping at the first
      failure. */
  function RolledAll(t: Table, cols: seq<string>): (r: Outcome<Table>)
    requires WellFormed(t)
    ensures r.Ok? ==> WellFormed(r.value) && |r.value.rows| == |t.rows|
    decreases |cols|
  {
    if cols == [] then Ok(t)
    else
      match RolledAll(t, cols[..|cols| - 1])
      case Err(m) => Err(m)
      case Ok(u) => AddRoll(u, cols[|cols| - 1])
  }

  /** `for col in rolling_features: if col in df.columns: df[f"{col}_ROLL7"] = ...` */
  method AddRollingFeatures(t: Table) returns (r: Outcome<Table>)
    requires WellFormed(t)
    ensures r == RolledAll(t, RollingFeatures)
  {
    var cur := t;
    for i := 0 to |RollingFeatures|
      invariant RolledAll(t, RollingFeatures[..i]) == Ok(cur)
    {
      assert RollingFeatures[..i + 1][..i] == RollingFeatures[..i];
      var c := RollingFeatures[i];
      if c in cur.cols {
        if !NumericColumn(cur, c) {
          r := Err("No numeric types to aggregate");
          PrefixErrPersists(t, RollingFeatures, i + 1);
          assert RollingFeatures[..|RollingFeatures|] == RollingFeatures;
          return;
        }
        cur := PutColumn(cur, RollName(c), Rolling(cur, c));
      }
    }
    assert RollingFeatures[..|RollingFeatures|] == RollingFeatures;
    r := Ok(cur);
  }

  /** Once a prefix of the loop fails, the whole loop fails with the same
      message. */
  lemma {:induction false} PrefixErrPersists(t: Table, cols: seq<string>, n: nat)
    requires WellFormed(t) && n <= |cols| && RolledAll(t, cols[..n]).Err?
    ensures RolledAll(t, cols) == RolledAll(t, cols[..n])
    decreases |cols| - n
  {
    if n < |cols| {
      assert cols[..n + 1][..n] == cols[..n];
      PrefixErrPersists(t, cols, n + 1);
    } else {
      assert cols[..n] == cols;
    }
  }

  /** The rolling loop adds columns and never changes an existing one other
      than a `_ROLL7` column. */
  lemma {:induction false} RolledAllKeeps(t: Table, cols: seq<string>, i: nat, c: string)
    requires WellFormed(t) && RolledAll(t, cols).Ok? && i < |t.rows| && !EndsWith(c, "_ROLL7")
    ensures Get(RolledAll(t, cols).value, i, c) == Get(t, i, c)
    decreases |cols|
  {
    if cols != [] {
      var pre := cols[..|cols| - 1];
      var d := cols[|cols| - 1];
      RolledAllKeeps(t, pre, i, c);
      var u := RolledAll(t, pre).value;
      if d in u.cols {
        assert c != RollName(d);
        PutKeepsOthers(u, RollName(d), Rolling(u, d), i, c);
      }
    }
  }

  // ----- calendar tags -----

  function SeasonName(s: Season): string {
    match s
    case Winter => "Winter"
    case Spring => "Spring"
    case Summer => "Summer"
    case Fall => "Fall"
  }

  /** `get_season` on a DATE cell. */
  function SeasonCell(c: Cell): Cell {
    if c.Date? then
      match GetSeason(c.day)
      case Some(s) => Text(SeasonName(s))
      case None => Null
    else Null
  }

  /** `.dt.weekday` on a DATE cell, Monday = 0. */
  function WeekdayCell(c: Cell): Cell {
    if c.Date? then Num(Weekday(c.day) as real) else Null
  }

  /** `isin([5, 6]).astype(int)` on a WEEKDAY cell. */
  function WeekendCell(c: Cell): Cell {
    if c == Num(5.0) || c == Num(6.0) then Num(1.0) else Num(0.0)
  }

  /** SEASON, then WEEKDAY, then IS_WEEKEND from WEEKDAY. */
  function CalendarFeatures(t: Table): (r: Table)
    requires WellFormed(t)
    ensures WellFormed(r) && |r.rows| == |t.rows|
  {
    var s := Derive(t, "DATE", "SEASON", SeasonCell);
    var w := Derive(s, "DATE", "WEEKDAY", WeekdayCell);
    Derive(w, "WEEKDAY", "IS_WEEKEND", WeekendCell)
  }

  /** The season tag of a date always exists. */
  lemma SeasonOfDate(z: Day)
    ensures GetSeason(z).Some? && SeasonCell(Date(z)) == Text(SeasonName(GetSeason(z).value))
  {
    GetSeasonTotal(z);
  }

  /** IS_WEEKEND computed from WEEKDAY is 1 exactly on Saturdays and Sundays. */
  lemma WeekendOfDate(z: Day)
    ensures WeekendCell(WeekdayCell(Date(z))) == Num(IsWeekend(z) as real)
    ensures WeekendCell(WeekdayCell(Date(z))) == Num(1.0) <==> Weekday(z) == 5 || Weekday(z) == 6
  {
    var w := Weekday(z);
    assert WeekdayCell(Date(z)) == Num(w as real);
    assert (w as real == 5.0 <==> w == 5) && (w as real == 6.0 <==> w == 6);
  }

  /** On a dated row, SEASON is the season of the day, WEEKDAY its weekday
      and IS_WEEKEND the weekend flag of the day. */
  lemma CalendarFeaturesFacts(t: Table, i: nat)
    requires WellFormed(t) && i < |t.rows| && Get(t, i, "DATE").Date?
    ensures var r := CalendarFeatures(t);
      var d := Get(t, i, "DATE");
      Get(r, i, "SEASON") == SeasonCell(d) &&
      Get(r, i, "WEEKDAY") == WeekdayCell(d) &&
      Get(r, i, "IS_WEEKEND") == WeekendCell(WeekdayCell(d))
  {
    var s := Derive(t, "DATE", "SEASON", SeasonCell);
    var w := Derive(s, "DATE", "WEEKDAY", WeekdayCell);
    var r := Derive(w, "WEEKDAY", "IS_WEEKEND", WeekendCell);
    assert r == CalendarFeatures(t);
    assert Get(s, i, "SEASON") == SeasonCell(Get(t, i, "DATE"));
    assert Get(s, i, "DATE") == Get(t, i, "DATE");
    assert Get(w, i, "WEEKDAY") == WeekdayCell(Get(s, i, "DATE"));
    assert Get(w, i, "SEASON") == Get(s, i, "SEASON");
    assert Get(r, i, "IS_WEEKEND") == WeekendCell(Get(w, i, "WEEKDAY"));
    assert Get(r, i, "WEEKDAY") == Get(w, i, "WEEKDAY");
    assert Get(r, i, "SEASON") == Get(w, i, "SEASON");
  }

  /** On a dated row the calendar tags keep the date and IS_WEEKEND is the
      weekend flag of that date. */
  lemma CalendarDated(t: Table, i: nat)
    requires WellFormed(t) && i < |t.rows| && Get(t, i, "DATE").Date?
    ensures Get(CalendarFeatures(t), i, "DATE") == Get(t, i, "DATE")
    ensures Get(CalendarFeatures(t), i, "IS_WEEKEND") == Num(IsWeekend(Get(t, i, "DATE").day) as real)
  {
    CalendarKeeps(t, i, "DATE");
    CalendarFeaturesFacts(t, i);
    WeekendOfDate(Get(t, i, "DATE").day);
  }

  /** The calendar tags leave every other column alone. */
  lemma CalendarKeeps(t: Table, i: nat, c: string)
    requires WellFormed(t) && i < |t.rows| && c !in ["SEASON", "WEEKDAY", "IS_WEEKEND"]
    ensures Get(CalendarFeatures(t), i, c) == Get(t, i, c)
  {
    var s := Derive(t, "DATE", "SEASON", SeasonCell);
    var w := Derive(s, "DATE", "WEEKDAY", WeekdayCell);
    assert Get(s, i, c) == Get(t, i, c);
    assert Get(w, i, c) == Get(s, i, c);
  }

  // ----- the whole script -----

  const DerivedNames: seq<string> := ["TEMP_RANGE_C", "RAIN_INDICATOR", "SEASON", "WEEKDAY", "IS_WEEKEND"]

  /** The feature steps between the fill and the calendar tags. */
  function Engineered(t: Table): (r: Outcome<Table>)
    requires WellFormed(t)
    ensures r.Ok? ==> WellFormed(r.value) && |r.value.rows| == |t.rows|
  {
    match TempRange(t)
    case Err(m) => Err(m)
    case Ok(u) =>
      match RainIndicator(u)
      case Err(m) => Err(m)
      case Ok(v) => RolledAll(v, RollingFeatures)
  }

  /** The feature steps leave every column that is not one they add alone. */
  lemma EngineeredKeeps(t: Table, i: nat, c: string)
    requires WellFormed(t) && Engineered(t).Ok? && i < |t.rows|
    requires c !in DerivedNames && !EndsWith(c, "_ROLL7")
    ensures Get(Engineered(t).value, i, c) == Get(t, i, c)
  {
    var u := TempRange(t).value;
    var v := RainIndicator(u).value;
    assert Get(u, i, c) == Get(t, i, c);
    assert Get(v, i, c) == Get(u, i, c);
    RolledAllKeeps(v, RollingFeatures, i, c);
  }

  /** The script from the read file to the table it saves. */
  function Enhanced(df: Table, parse: string -> Option<int>): (r: Outcome<Table>)
    requires WellFormed(df)
  {
    match ReadDated(df, parse)
    case Err(m) => Err(m)
    case Ok(t) =>
      match Engineered(FilledAll(t, NumericCols(df, df.cols)))
      case Err(m) => Err(m)
      case Ok(w) => Ok(CalendarFeatures(w))
  }

  /** The script as a sequence of in-place steps. */
  method EnhanceWeather(df: Table, parse: string -> Option<int>) returns (r: Outcome<Table>)
    requires WellFormed(df)
    ensures r == Enhanced(df, parse)
  {
    var read := ReadDated(df, parse);
    if read.Err? {
      return Err(read.msg);
    }
    var t := FillMedians(read.value, NumericCols(df, df.cols));
    var ranged := TempRange(t);
    if ranged.Err? {
      return Err(ranged.msg);
    }
    var flagged := RainIndicator(ranged.value);
    if flagged.Err? {
      return Err(flagged.msg);
    }
    var rolled := AddRollingFeatures(flagged.value);
    if rolled.Err? {
      return Err(rolled.msg);
    }
    r := Ok(CalendarFeatures(rolled.value));
  }

  /** The script fails without a DATE column or with a DATE cell that does
      not parse. */
  lemma EnhancedNeedsDates(df: Table, parse: string -> Option<int>)
    requires WellFormed(df)
    ensures "DATE" !in df.cols ==> Enhanced(df, parse).Err?
    ensures (exists i :: 0 <= i < |df.rows| && BadDateCell(Get(df, i, "DATE"), parse)) ==> Enhanced(df, parse).Err?
  {
    if exists i :: 0 <= i < |df.rows| && BadDateCell(Get(df, i, "DATE"), parse) {
      var i :| 0 <= i < |df.rows| && BadDateCell(Get(df, i, "DATE"), parse);
      assert KeyCol(df, "DATE")[i] == Get(df, i, "DATE");
    }
  }

  /** A successful run is the calendar tags over the features over the
      filled, dated table. */
  lemma EnhancedSteps(df: Table, parse: string -> Option<int>)
    requires WellFormed(df) && Enhanced(df, parse).Ok?
    ensures ReadDated(df, parse).Ok?
    ensures var t := ReadDated(df, parse).value;
      var filled := FilledAll(t, NumericCols(df, df.cols));
      Engineered(filled).Ok? && Enhanced(df, parse).value == CalendarFeatures(Engineered(filled).value) &&
      |Enhanced(df, parse).value.rows| == |t.rows|
  {
  }

  /** The steps after the read keep each row's date and tag it with its
      weekend flag. */
  lemma StepsKeepDate(t: Table, cols: seq<string>, i: nat)
    requires WellFormed(t) && (forall c :: c in cols ==> c in t.cols) && DistinctNames(cols)
    requires "DATE" !in cols && i < |t.rows| && Get(t, i, "DATE").Date?
    requires Engineered(FilledAll(t, cols)).Ok?
    ensures var r := CalendarFeatures(Engineered(FilledAll(t, cols)).value);
      Get(r, i, "DATE") == Get(t, i, "DATE") &&
      Get(r, i, "IS_WEEKEND") == Num(IsWeekend(Get(t, i, "DATE").day) as real)
  {
    FilledAllCells(t, cols, i, "DATE");
    FeaturesKeepDate(FilledAll(t, cols), i);
  }

  /** The feature steps and the calendar tags keep a row's date. */
  lemma FeaturesKeepDate(t: Table, i: nat)
    requires WellFormed(t) && i < |t.rows| && Get(t, i, "DATE").Date? && Engineered(t).Ok?
    ensures var r := CalendarFeatures(Engineered(t).value);
      Get(r, i, "DATE") == Get(t, i, "DATE") &&
      Get(r, i, "IS_WEEKEND") == Num(IsWeekend(Get(t, i, "DATE").day) as real)
  {
    assert !EndsWith("DATE", "_ROLL7");
    EngineeredKeeps(t, i, "DATE");
    CalendarDated(Engineered(t).value, i);
  }

  /** In the saved table there is one row per dated row of the read file,
      every row keeps its date, and IS_WEEKEND matches that date. */
  lemma EnhancedDated(df: Table, parse: string -> Option<int>, i: nat)
    requires WellFormed(df) && DistinctNames(df.cols) && Enhanced(df, parse).Ok?
    requires i < |Enhanced(df, parse).value.rows|
    ensures var t := ReadDated(df, parse).value;
      var r := Enhanced(df, parse).value;
      |r.rows| == |t.rows| && Get(r, i, "DATE") == Get(t, i, "DATE") && Get(r, i, "DATE").Date? &&
      Get(r, i, "IS_WEEKEND") == Num(IsWeekend(Get(r, i, "DATE").day) as real)
  {
    EnhancedSteps(df, parse);
    var t := ReadDated(df, parse).value;
    var cols := NumericCols(df, df.cols);
    assert "DATE" !in cols;
    NumericColsDistinct(df, df.cols);
    StepsKeepDate(t, cols, i);
  }

  /** A column of the saved table that is neither derived nor a `_ROLL7`
      column holds the filled values. */
  lemma EnhancedKeeps(df: Table, parse: string -> Option<int>, i: nat, c: string)
    requires WellFormed(df) && Enhanced(df, parse).Ok?
    requires i < |Enhanced(df, parse).value.rows|
    requires c !in DerivedNames && !EndsWith(c, "_ROLL7")
    ensures var t := ReadDated(df, parse).value;
      Get(Enhanced(df, parse).value, i, c) == Get(FilledAll(t, NumericCols(df, df.cols)), i, c)
  {
    EnhancedSteps(df, parse);
    var t := ReadDated(df, parse).value;
    var filled := FilledAll(t, NumericCols(df, df.cols));
    var w := Engineered(filled).value;
    EngineeredKeeps(filled, i, c);
    CalendarKeeps(w, i, c);
  }
}
