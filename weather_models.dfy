/** What the weather forecasting scripts under backend/weather_data_files/
    share: reading the cleaned weather file with its DATE column parsed,
    taking one variable as a dated series with missing rows dropped, and
    appending a new metrics table to an existing summary file. */
module WeatherModels {
  import opened Wrappers
  import opened Frames
  import opened Columns
  import opened Aggregate
  import opened Grouping

  /** The three temperature variables every weather model forecasts. */
  const Targets: seq<string> := ["Max_Temperature", "Min_Temperature", "Average_Temperature"]

  /** `pd.read_csv(path, parse_dates=["DATE"])` on the file's table: the
      DATE column is converted to timestamps, an empty cell becoming NaT;
      a file without DATE, or with a DATE the parser rejects, fails. */
  function ReadWeather(df: Table, parse: string -> Option<int>): (r: Outcome<Table>)
    requires WellFormed(df)
    ensures r.Err? <==> "DATE" !in df.cols || StrictDates(KeyCol(df, "DATE"), parse).Err?
    ensures r.Ok? ==> WellFormed(r.value) && r.value.cols == df.cols && |r.value.rows| == |df.rows|
    ensures r.Ok? ==> forall i :: 0 <= i < |df.rows| ==> Get(r.value, i, "DATE") == ToDate(Get(df, i, "DATE"), parse)
    ensures r.Ok? ==> forall i, c :: 0 <= i < |df.rows| && c != "DATE" ==> Get(r.value, i, c) == Get(df, i, c)
  {
    if "DATE" !in df.cols then Err("Missing column provided to 'parse_dates': 'DATE'")
    else
      match StrictDates(KeyCol(df, "DATE"), parse)
      case Err(m) => Err(m)
      case Ok(_) => Ok(Derive(df, "DATE", "DATE", DateCoerce(parse)))
  }

  /** The same read as pandas performs it: a DATE text that does not parse
      does not fail the read, it leaves the DATE column as the texts read.
      Only a file without DATE fails; every other column is as in the file. */
  function ReadLenient(df: Table, parse: string -> Option<int>): (r: Outcome<Table>)
    requires WellFormed(df)
    ensures r.Err? <==> "DATE" !in df.cols
    ensures r.Ok? ==> WellFormed(r.value) && r.value.cols == df.cols && |r.value.rows| == |df.rows|
    ensures r.Ok? ==> forall i, c :: 0 <= i < |df.rows| && c != "DATE" ==> Get(r.value, i, c) == Get(df, i, c)
    ensures ReadWeather(df, parse).Ok? ==> r == ReadWeather(df, parse)
    ensures "DATE" in df.cols && ReadWeather(df, parse).Err? ==> r == Ok(df)
  {
    if "DATE" !in df.cols then Err("Missing column provided to 'parse_dates': 'DATE'")
    else
      match ReadWeather(df, parse)
      case Ok(t) => Ok(t)
      case Err(_) => Ok(df)
  }

  // ----- one variable as a dated series -----

  /** `df[["DATE", column]].dropna()` as (day, value) points in row order: a
      missing column raises KeyError, and a text value among the dated rows
      is one the models cannot take as a number. */
  function DatedSeries(t: Table, c: string): (r: Outcome<seq<Point>>)
    ensures r.Err? <==> c !in t.cols || TextValue(t, "DATE", DayKey, c)
    ensures r.Ok? ==> |r.value| <= |t.rows|
  {
    if c !in t.cols then Err("KeyError: \"['" + c + "'] not in index\"")
    else if TextValue(t, "DATE", DayKey, c) then Err("could not convert string to float")
    else Ok(DropNa(Observations(t.cols, t.rows, "DATE", DayKey, c)))
  }

  /** A point is in the series exactly when some row holds that day and
      that number. */
  lemma DatedSeriesPoints(t: Table, c: string, p: Point)
    requires DatedSeries(t, c).Ok?
    ensures p in DatedSeries(t, c).value <==>
      exists i :: 0 <= i < |t.rows| && Get(t, i, "DATE") == Date(p.key) && Get(t, i, c) == Num(p.val)
  {
    var xs := Observations(t.cols, t.rows, "DATE", DayKey, c);
    var r := DropNa(xs);
    ObservationMember(t.cols, t.rows, c, Obs(p.key, Some(p.val)));
    if p in r {
      var k :| 0 <= k < |r| && r[k] == p;
      assert Obs(p.key, Some(p.val)) in xs;
    }
    if Obs(p.key, Some(p.val)) in xs {
      var j :| 0 <= j < |xs| && xs[j] == Obs(p.key, Some(p.val));
      assert Point(xs[j].key, xs[j].val.value) in r;
    }
    assert forall i :: 0 <= i < |t.rows| ==> Get(t, i, "DATE") == Lookup(t.cols, t.rows[i], "DATE") && Get(t, i, c) == Lookup(t.cols, t.rows[i], c);
  }

  /** An observation is recorded exactly for a row with a timestamp. */
  lemma {:induction false} ObservationMember(cols: seq<string>, rows: seq<seq<Cell>>, c: string, o: Obs)
    ensures o in Observations(cols, rows, "DATE", DayKey, c) <==>
      exists i :: 0 <= i < |rows| && Lookup(cols, rows[i], "DATE") == Date(o.key) && NumOf(Lookup(cols, rows[i], c)) == o.val
    decreases |rows|
  {
    if rows != [] {
      ObservationMember(cols, rows[1..], c, o);
      var d := Lookup(cols, rows[0], "DATE");
      var rest := Observations(cols, rows[1..], "DATE", DayKey, c);
      var xs := Observations(cols, rows, "DATE", DayKey, c);
      assert xs == (if d.Date? then [Obs(d.day, NumOf(Lookup(cols, rows[0], c)))] else []) + rest;
      assert forall i :: 1 <= i < |rows| ==> rows[1..][i - 1] == rows[i];
      if exists i :: 0 <= i < |rows| && Lookup(cols, rows[i], "DATE") == Date(o.key) && NumOf(Lookup(cols, rows[i], c)) == o.val {
        var i :| 0 <= i < |rows| && Lookup(cols, rows[i], "DATE") == Date(o.key) && NumOf(Lookup(cols, rows[i], c)) == o.val;
        if i > 0 {
          assert rows[1..][i - 1] == rows[i];
        }
      }
    }
  }

  // ----- the summary file -----

  /** `pd.concat([existing, new], ignore_index=True)` when the summary file
      exists, the new table alone when it does not. */
  function Appended(existing: Option<Table>, added: Table): (r: Table)
    ensures |r.rows| == (if existing.Some? then |existing.value.rows| else 0) + |added.rows|
  {
    if existing.Some? then Concat(existing.value, added) else added
  }

  /** The existing rows come first and are unaltered; the new rows follow in
      order and read back their own values under their own columns. */
  lemma AppendedRows(existing: Option<Table>, added: Table, c: string)
    ensures var r := Appended(existing, added);
      var n := if existing.Some? then |existing.value.rows| else 0;
      (existing.Some? ==> forall i :: 0 <= i < n ==> Get(r, i, c) == Get(existing.value, i, c)) &&
      (forall j :: 0 <= j < |added.rows| ==> Get(r, n + j, c) == Get(added, j, c))
  {
    if existing.Some? {
      forall i | 0 <= i < |existing.value.rows| ensures Get(Concat(existing.value, added), i, c) == Get(existing.value, i, c) {
        ConcatLeftRows(existing.value, added, i, c);
      }
      forall j | 0 <= j < |added.rows|
        ensures Get(Concat(existing.value, added), |existing.value.rows| + j, c) == Get(added, j, c)
      {
        ConcatRightRows(existing.value, added, j, c);
      }
    }
  }
}
