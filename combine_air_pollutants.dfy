/** Building the combined daily table of all pollutants: each pollutant's
    file is reduced to its daily mean across stations, the first one found
    starts the table, every later one is outer-merged on the date, missing
    files are skipped, and the result is sorted by date. */
module CombineAirPollutants {
  import opened Wrappers
  import opened Aggregate
  import opened AirData
  import opened WideTable
  import Calendar

  /** The (file name, pollutant) pairs in the order they are processed. */
  const Pollutants: seq<(string, string)> := [
    ("88101_all.csv", "PM2.5"),
    ("81102_all.csv", "PM10"),
    ("42101_all.csv", "CO"),
    ("42602_all.csv", "NO2"),
    ("42401_all.csv", "SO2"),
    ("44201_all.csv", "O3")
  ]

  /** One turn of the loop: a missing file leaves the accumulator alone; a
      file is read, its dates parsed strictly (an unparsable date stops the
      script), and its daily means either start the table or are merged in. */
  function Step(acc: Option<Wide>, item: (string, string), files: string -> Option<seq<Reading>>,
                parse: string -> Option<Calendar.Day>): (r: Outcome<Option<Wide>>)
    requires acc.Some? ==> Keyed(acc.value)
    ensures r.Ok? && r.value.Some? ==> Keyed(r.value.value)
  {
    match files(item.0)
    case None => Ok(acc)
    case Some(rows) =>
      match Daily(rows, parse)
      case Err(m) => Err(m)
      case Ok(s) =>
        DailyMeans(rows, parse);
        if acc.None? then Ok(Some(FromSeries(item.1, s)))
        else Ok(Some(OuterMerge(acc.value, item.1, s)))
  }

  /** `df_combined` after the loop has processed the given pairs. */
  function Fold(items: seq<(string, string)>, files: string -> Option<seq<Reading>>,
                parse: string -> Option<Calendar.Day>): (r: Outcome<Option<Wide>>)
    ensures r.Ok? && r.value.Some? ==> Keyed(r.value.value)
  {
    if items == [] then Ok(None)
    else
      match Fold(items[..|items| - 1], files, parse)
      case Err(m) => Err(m)
      case Ok(acc) => Step(acc, items[|items| - 1], files, parse)
  }

  /** The whole script: the fold, then `sort_values("date_local")`, which
      fails on None when no file was found. */
  function Combined(items: seq<(string, string)>, files: string -> Option<seq<Reading>>,
                    parse: string -> Option<Calendar.Day>): Outcome<Wide>
  {
    match Fold(items, files, parse)
    case Err(m) => Err(m)
    case Ok(None) => Err("'NoneType' object has no attribute 'sort_values'")
    case Ok(Some(w)) => Ok(SortRows(w))
  }

  /** The script's loop over the pairs, folding `df_combined` from None. */
  method Combine(items: seq<(string, string)>, files: string -> Option<seq<Reading>>,
                 parse: string -> Option<Calendar.Day>) returns (r: Outcome<Wide>)
    ensures r == Combined(items, files, parse)
  {
    var combined: Option<Wide> := None;
    for i := 0 to |items|
      invariant Fold(items[..i], files, parse) == Ok(combined)
    {
      assert items[..i + 1][..i] == items[..i];
      var item := items[i];
      assert Fold(items[..i + 1], files, parse) == Step(combined, item, files, parse);
      var file := files(item.0);
      if file.Some? {
        var daily := Daily(file.value, parse);
        if daily.Err? {
          FoldStaysErr(items, i + 1, files, parse);
          return Err(daily.msg);
        }
        DailyMeans(file.value, parse);
        if combined.None? {
          combined := Some(FromSeries(item.1, daily.value));
        } else {
          combined := Some(OuterMerge(combined.value, item.1, daily.value));
        }
      }
    }
    assert items[..|items|] == items;
    if combined.None? {
      r := Err("'NoneType' object has no attribute 'sort_values'");
    } else {
      r := Ok(SortRows(combined.value));
    }
  }

  /** Once the fold has failed it stays failed with the same error. */
  lemma {:induction false} FoldStaysErr(items: seq<(string, string)>, i: nat, files: string -> Option<seq<Reading>>,
                                        parse: string -> Option<Calendar.Day>)
    requires i <= |items| && Fold(items[..i], files, parse).Err?
    ensures Fold(items, files, parse) == Fold(items[..i], files, parse)
    decreases |items| - i
  {
    if i < |items| {
      assert items[..i + 1][..i] == items[..i];
      FoldStaysErr(items, i + 1, files, parse);
    } else {
      assert items[..i] == items;
    }
  }

  /** A pair whose file exists. */
  predicate Found(item: (string, string), files: string -> Option<seq<Reading>>) {
    files(item.0).Some?
  }

  /** k is a parsable date of the pair's file. */
  predicate HasDate(item: (string, string), files: string -> Option<seq<Reading>>,
                    parse: string -> Option<Calendar.Day>, k: int)
  {
    files(item.0).Some? &&
    exists j :: 0 <= j < |files(item.0).value| &&
      files(item.0).value[j].date.Some? && parse(files(item.0).value[j].date.value) == Some(k)
  }

  /** Some pair's file exists. */
  predicate AnyFound(items: seq<(string, string)>, files: string -> Option<seq<Reading>>) {
    exists i :: 0 <= i < |items| && Found(items[i], files)
  }

  /** k is a parsable date of some pair's file. */
  predicate AnyDate(items: seq<(string, string)>, files: string -> Option<seq<Reading>>,
                    parse: string -> Option<Calendar.Day>, k: int)
  {
    exists i :: 0 <= i < |items| && HasDate(items[i], files, parse, k)
  }

  /** When the fold succeeds: it holds a table exactly when some file was
      found, one column per found pollutant in processing order, and its
      dates are the union of the found files' dates, ascending. */
  lemma {:induction false} FoldShape(items: seq<(string, string)>, files: string -> Option<seq<Reading>>,
                                     parse: string -> Option<Calendar.Day>)
    requires Fold(items, files, parse).Ok?
    ensures var acc := Fold(items, files, parse).value;
      (acc.Some? <==> AnyFound(items, files)) &&
      (acc.Some? ==> (Increasing(RowKeys(acc.value.rows)) &&
        acc.value.names == FoundNames(items, files) &&
        forall k :: k in RowKeys(acc.value.rows) <==> AnyDate(items, files, parse, k)))
  {
    if items != [] {
      var n := |items|;
      var init := items[..n - 1];
      var last := items[n - 1];
      assert Fold(init, files, parse).Ok?;
      FoldShape(init, files, parse);
      var acc0 := Fold(init, files, parse).value;
      var acc := Fold(items, files, parse).value;
      FoundSnoc(items, files);
      assert FoundNames(items, files) == FoundNames(init, files) + (if Found(last, files) then [last.1] else []);
      if Found(last, files) {
        StepKeys(acc0, last, files, parse);
        if acc0.None? {
          NoneFound(init, files);
        }
        forall k ensures k in RowKeys(acc.value.rows) <==> AnyDate(items, files, parse, k) {
          DateSnoc(items, files, parse, k);
          if acc0.None? {
            NoDates(init, files, parse, k);
          }
        }
      } else {
        forall k ensures AnyDate(items, files, parse, k) <==> AnyDate(init, files, parse, k) {
          DateSnoc(items, files, parse, k);
        }
      }
    }
  }

  /** Found among the pairs: among the first ones, or the last one. */
  lemma FoundSnoc(items: seq<(string, string)>, files: string -> Option<seq<Reading>>)
    requires items != []
    ensures AnyFound(items, files) <==> AnyFound(items[..|items| - 1], files) || Found(items[|items| - 1], files)
  {
    var init := items[..|items| - 1];
    if AnyFound(items, files) {
      var i :| 0 <= i < |items| && Found(items[i], files);
      if i < |init| {
        assert init[i] == items[i];
      }
    }
    if AnyFound(init, files) {
      var i :| 0 <= i < |init| && Found(init[i], files);
      assert items[i] == init[i];
    }
  }

  /** A date of the pairs: of the first ones, or of the last one. */
  lemma DateSnoc(items: seq<(string, string)>, files: string -> Option<seq<Reading>>,
                 parse: string -> Option<Calendar.Day>, k: int)
    requires items != []
    ensures AnyDate(items, files, parse, k) <==>
      AnyDate(items[..|items| - 1], files, parse, k) || HasDate(items[|items| - 1], files, parse, k)
  {
    var init := items[..|items| - 1];
    if AnyDate(items, files, parse, k) {
      var i :| 0 <= i < |items| && HasDate(items[i], files, parse, k);
      if i < |init| {
        assert init[i] == items[i];
      }
    }
    if AnyDate(init, files, parse, k) {
      var i :| 0 <= i < |init| && HasDate(init[i], files, parse, k);
      assert items[i] == init[i];
    }
  }

  /** Pairs none of whose files exist have no dates. */
  lemma NoDates(items: seq<(string, string)>, files: string -> Option<seq<Reading>>,
                parse: string -> Option<Calendar.Day>, k: int)
    requires !AnyFound(items, files)
    ensures !AnyDate(items, files, parse, k)
  {
    forall i | 0 <= i < |items| ensures !HasDate(items[i], files, parse, k) {
      assert !Found(items[i], files);
    }
  }

  /** A turn on a found file: the table's dates are the old dates and the
      file's parsable dates, ascending. */
  lemma StepKeys(acc: Option<Wide>, item: (string, string), files: string -> Option<seq<Reading>>,
                 parse: string -> Option<Calendar.Day>)
    requires acc.Some? ==> Keyed(acc.value)
    requires Found(item, files) && Step(acc, item, files, parse).Ok?
    ensures var a := Step(acc, item, files, parse).value;
      a.Some? && (acc.Some? ==> a.value.names == acc.value.names + [item.1]) &&
      (acc.None? ==> a.value.names == [item.1]) &&
      forall k :: k in RowKeys(a.value.rows) <==>
        (acc.Some? && k in RowKeys(acc.value.rows)) || HasDate(item, files, parse, k)
  {
    var rows := files(item.0).value;
    DailyMeans(rows, parse);
    var s := Daily(rows, parse).value;
    forall k ensures k in Keys(s) <==> HasDate(item, files, parse, k) {
    }
  }

  /** The pollutant names of the pairs whose files exist, in order. */
  function FoundNames(items: seq<(string, string)>, files: string -> Option<seq<Reading>>): (ns: seq<string>)
    ensures |ns| <= |items|
  {
    if items == [] then []
    else FoundNames(items[..|items| - 1], files) + (if Found(items[|items| - 1], files) then [items[|items| - 1].1] else [])
  }

  lemma {:induction false} NoneFound(items: seq<(string, string)>, files: string -> Option<seq<Reading>>)
    requires forall i :: 0 <= i < |items| ==> !Found(items[i], files)
    ensures FoundNames(items, files) == []
  {
    if items != [] {
      NoneFound(items[..|items| - 1], files);
    }
  }

  /** The script fails exactly when no file exists or a found file has a
      date that does not parse; otherwise its dates are the union of all
      found files' dates, in ascending order, and the final sort changes
      nothing. */
  lemma CombinedOutcome(items: seq<(string, string)>, files: string -> Option<seq<Reading>>,
                        parse: string -> Option<Calendar.Day>)
    requires Fold(items, files, parse).Ok?
    ensures Combined(items, files, parse).Ok? <==> AnyFound(items, files)
    ensures Combined(items, files, parse).Ok? ==>
      Combined(items, files, parse).value == Fold(items, files, parse).value.value &&
      Combined(items, files, parse).value.names == FoundNames(items, files)
  {
    FoldShape(items, files, parse);
    if Fold(items, files, parse).value.Some? {
      SortKeyedIsIdentity(Fold(items, files, parse).value.value);
    }
  }
}
