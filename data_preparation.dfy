/** `data_preparation.py`, `clean_pm25_data`: the EPA daily records reduced to
    Prophet's (ds, y) by selecting the date and the mean, parsing the dates
    with the month/day/year format (a date that does not match becomes NaT),
    and averaging the values of each date. Fetching the records is not part
    of this model. */
module DataPreparation {
  import opened Wrappers
  import opened Stats
  import opened Aggregate
  import opened Frames
  import opened Columns
  import opened Grouping

  /** The day a `date_local` cell parses to under the `%m/%d/%Y` format. */
  function ParsedDay(parseMdy: string -> Option<int>): Cell -> Option<int> {
    c => DayKey(ToDate(c, parseMdy))
  }

  /** `clean_pm25_data`: select, rename `arithmetic_mean` to `pm25`, parse
      `date_local` with errors='coerce', rename to (ds, y), group by ds and
      take the mean. A missing column is a KeyError (there is no guard). */
  function CleanPm25(df: Table, parseMdy: string -> Option<int>): Outcome<seq<Obs>>
  {
    match Select(df, ["date_local", "arithmetic_mean"])
    case Err(m) => Err(m)
    case Ok(sel) =>
      var named := Rename(sel, map["arithmetic_mean" := "pm25"]);
      var parsed := MapColumn(named, "date_local", c => ToDate(c, parseMdy));
      var prophet := Rename(parsed, map["date_local" := "ds", "pm25" := "y"]);
      GroupedMean(prophet, "ds", DayKey, "y")
  }

  /** The table `clean_pm25_data` hands to the group-by. */
  function Prepared(df: Table, parseMdy: string -> Option<int>): Table
    requires "date_local" in df.cols && "arithmetic_mean" in df.cols
  {
    var sel := Select(df, ["date_local", "arithmetic_mean"]).value;
    var named := Rename(sel, map["arithmetic_mean" := "pm25"]);
    var parsed := MapColumn(named, "date_local", c => ToDate(c, parseMdy));
    Rename(parsed, map["date_local" := "ds", "pm25" := "y"])
  }

  /** Row `i` of the prepared table holds row `i`'s parsed date and mean. */
  lemma PreparedRow(df: Table, parseMdy: string -> Option<int>, i: int)
    requires WellFormed(df) && "date_local" in df.cols && "arithmetic_mean" in df.cols
    requires 0 <= i < |df.rows|
    ensures DayKey(Get(Prepared(df, parseMdy), i, "ds")) == ParsedDay(parseMdy)(Get(df, i, "date_local"))
    ensures Get(Prepared(df, parseMdy), i, "y") == Get(df, i, "arithmetic_mean")
  {
    var sel := Select(df, ["date_local", "arithmetic_mean"]).value;
    var named := Rename(sel, map["arithmetic_mean" := "pm25"]);
    assert named.cols == ["date_local", "pm25"];
    var parsed := MapColumn(named, "date_local", c => ToDate(c, parseMdy));
    assert parsed.cols == named.cols;
    var prophet := Rename(parsed, map["date_local" := "ds", "pm25" := "y"]);
    SelectValues(df, ["date_local", "arithmetic_mean"], i, "date_local");
    SelectValues(df, ["date_local", "arithmetic_mean"], i, "arithmetic_mean");
    assert Get(named, i, "date_local") == Get(sel, i, "date_local");
    assert Get(named, i, "pm25") == Get(sel, i, "arithmetic_mean");
    assert Get(parsed, i, "pm25") == Get(named, i, "pm25") by {
      PutKeepsOthers(named, "date_local", seq(|KeyCol(named, "date_local")|, j requires 0 <= j < |KeyCol(named, "date_local")| => ToDate(KeyCol(named, "date_local")[j], parseMdy)), i, "pm25");
    }
    assert Get(prophet, i, "ds") == Get(parsed, i, "date_local");
    assert Get(prophet, i, "y") == Get(parsed, i, "pm25");
  }

  /** The pipeline is one group-by on the original records: by the parsed
      date, over `arithmetic_mean`. */
  lemma CleanIsGroupedMean(df: Table, parseMdy: string -> Option<int>)
    requires WellFormed(df) && "date_local" in df.cols && "arithmetic_mean" in df.cols
    ensures CleanPm25(df, parseMdy) == GroupedMean(df, "date_local", ParsedDay(parseMdy), "arithmetic_mean")
  {
    var prophet := Prepared(df, parseMdy);
    assert prophet.cols == ["ds", "y"];
    forall i | 0 <= i < |df.rows|
      ensures DayKey(Get(prophet, i, "ds")) == ParsedDay(parseMdy)(Get(df, i, "date_local"))
      ensures Get(prophet, i, "y") == Get(df, i, "arithmetic_mean")
    {
      PreparedRow(df, parseMdy, i);
    }
    GroupedMeanAgree(prophet, "ds", DayKey, "y", df, "date_local", ParsedDay(parseMdy), "arithmetic_mean");
  }

  /** One (ds, y) row per date that parses, ascending, each y the mean of the
      `arithmetic_mean` values recorded on that date; records whose date
      does not match the format are left out. */
  lemma CleanPm25Means(df: Table, parseMdy: string -> Option<int>)
    requires WellFormed(df) && CleanPm25(df, parseMdy).Ok?
    ensures var r := CleanPm25(df, parseMdy).value;
      Ascending(r) &&
      (forall k :: k in Keys(r) <==>
        exists i :: 0 <= i < |df.rows| && ToDate(Get(df, i, "date_local"), parseMdy) == Date(k)) &&
      (forall i :: 0 <= i < |r| ==>
        r[i].val == MeanSkipNa(GroupValues(df.cols, df.rows, "date_local", ParsedDay(parseMdy), "arithmetic_mean", r[i].key)))
  {
    CleanIsGroupedMean(df, parseMdy);
    GroupedMeanFacts(df, "date_local", ParsedDay(parseMdy), "arithmetic_mean");
  }

  /** There is no column guard: a record set without `date_local` or
      `arithmetic_mean` is an error. */
  lemma CleanNeedsColumns(df: Table, parseMdy: string -> Option<int>)
    requires "date_local" !in df.cols || "arithmetic_mean" !in df.cols
    ensures CleanPm25(df, parseMdy).Err?
  {
  }
}
