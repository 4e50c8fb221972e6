/** The daily multivariate XGBoost pollutant forecaster: every pollutant's
    daily means outer-merged on the date into one table, gaps filled forward
    then backward, lag columns for every pollutant, and for each target a
    chronological split of the lag features, a fitted regressor and the
    rounded metrics. The regressor is a parameter. */
module XgboostMultivariate {
  import opened Wrappers
  import opened Aggregate
  import opened PySeq
  import opened Metrics
  import opened RealFacts
  import opened AirData
  import opened WideTable
  import XgboostUnivariate
  import Frames
  import Calendar

  /** The (pollutant, parameter code) pairs in dict order. */
  const PollutantCodes: seq<(string, string)> := [
    ("PM2.5", "88101"),
    ("PM10", "81102"),
    ("CO", "42101"),
    ("SO2", "42401"),
    ("NO2", "42602"),
    ("O3", "44201")
  ]

  const Lags: nat := 3

  /** `list(POLLUTANT_CODES.keys())`. */
  const AllPollutants: seq<string> := ["PM2.5", "PM10", "CO", "SO2", "NO2", "O3"]

  /** The file of a parameter code. */
  function FileOf(code: string): string {
    code + "_all.csv"
  }

  // ----- load_and_merge_pollutants -----

  /** `dfs` after the loop has seen the given pairs: a missing file is
      skipped, an unparsable date stops the script, and every file read adds
      its (pollutant, daily means) pair. */
  function DailyFrames(codes: seq<(string, string)>, files: string -> Option<seq<Reading>>,
                       parse: string -> Option<Calendar.Day>): (r: Outcome<seq<(string, seq<Obs>)>>)
    ensures r.Ok? ==> forall i :: 0 <= i < |r.value| ==> Ascending(r.value[i].1)
  {
    if codes == [] then Ok([])
    else
      var n := |codes|;
      match DailyFrames(codes[..n - 1], files, parse)
      case Err(m) => Err(m)
      case Ok(dfs) =>
        match files(FileOf(codes[n - 1].1))
        case None => Ok(dfs)
        case Some(rows) =>
          match Daily(rows, parse)
          case Err(m) => Err(m)
          case Ok(s) =>
            DailyMeans(rows, parse);
            Ok(dfs + [(codes[n - 1].0, s)])
  }

  /** Once loading has failed it stays failed with the same error. */
  lemma {:induction false} DailyFramesStaysErr(codes: seq<(string, string)>, i: nat, files: string -> Option<seq<Reading>>,
                                               parse: string -> Option<Calendar.Day>)
    requires i <= |codes| && DailyFrames(codes[..i], files, parse).Err?
    ensures DailyFrames(codes, files, parse) == DailyFrames(codes[..i], files, parse)
    decreases |codes| - i
  {
    if i < |codes| {
      assert codes[..i + 1][..i] == codes[..i];
      DailyFramesStaysErr(codes, i + 1, files, parse);
    } else {
      assert codes[..i] == codes;
    }
  }

  /** A pair whose file exists. */
  predicate Found(item: (string, string), files: string -> Option<seq<Reading>>) {
    files(FileOf(item.1)).Some?
  }

  /** k is a parsable date of the pair's file. */
  predicate HasDate(item: (string, string), files: string -> Option<seq<Reading>>,
                    parse: string -> Option<Calendar.Day>, k: int)
  {
    files(FileOf(item.1)).Some? &&
    exists j :: 0 <= j < |files(FileOf(item.1)).value| &&
      files(FileOf(item.1)).value[j].date.Some? && parse(files(FileOf(item.1)).value[j].date.value) == Some(k)
  }

  /** The pollutant names of a list of frames. */
  function Names(dfs: seq<(string, seq<Obs>)>): (ns: seq<string>)
    ensures |ns| == |dfs| && forall i :: 0 <= i < |dfs| ==> ns[i] == dfs[i].0
  {
    seq(|dfs|, i requires 0 <= i < |dfs| => dfs[i].0)
  }

  /** k is a date of one of the frames. */
  predicate InSomeFrame(dfs: seq<(string, seq<Obs>)>, k: int) {
    exists i :: 0 <= i < |dfs| && k in Keys(dfs[i].1)
  }

  /** k is a parsable date of one of the files found. */
  predicate InSomeFile(codes: seq<(string, string)>, files: string -> Option<seq<Reading>>,
                       parse: string -> Option<Calendar.Day>, k: int)
  {
    exists i :: 0 <= i < |codes| && HasDate(codes[i], files, parse, k)
  }

  /** When loading succeeds it has a frame exactly when some file was
      found, one per file found, in order. */
  lemma {:induction false} DailyFramesFound(codes: seq<(string, string)>, files: string -> Option<seq<Reading>>,
                                            parse: string -> Option<Calendar.Day>)
    requires DailyFrames(codes, files, parse).Ok?
    ensures DailyFrames(codes, files, parse).value == [] <==> forall i :: 0 <= i < |codes| ==> !Found(codes[i], files)
  {
    if codes != [] {
      var n := |codes|;
      var init := codes[..n - 1];
      DailyFramesFound(init, files, parse);
      assert forall i :: 0 <= i < n - 1 ==> init[i] == codes[i];
    }
  }

  /** One step of loading: the frames of all pairs are those of all but the
      last, plus the last file's daily means when that file exists. */
  lemma DailyFramesLast(codes: seq<(string, string)>, files: string -> Option<seq<Reading>>,
                        parse: string -> Option<Calendar.Day>)
    requires codes != [] && DailyFrames(codes, files, parse).Ok?
    ensures var last := codes[|codes| - 1];
      DailyFrames(codes[..|codes| - 1], files, parse).Ok? &&
      (Found(last, files) ==> Daily(files(FileOf(last.1)).value, parse).Ok?) &&
      DailyFrames(codes, files, parse).value == DailyFrames(codes[..|codes| - 1], files, parse).value +
        (if Found(last, files) then [(last.0, Daily(files(FileOf(last.1)).value, parse).value)] else [])
  {
  }

  /** The daily means of a file found hold exactly its parsable dates. */
  lemma FileDates(item: (string, string), files: string -> Option<seq<Reading>>,
                  parse: string -> Option<Calendar.Day>, k: int)
    requires Found(item, files) && Daily(files(FileOf(item.1)).value, parse).Ok?
    ensures k in Keys(Daily(files(FileOf(item.1)).value, parse).value) <==> HasDate(item, files, parse, k)
  {
    DailyMeans(files(FileOf(item.1)).value, parse);
  }

  /** When loading succeeds the frames' dates are the parsable dates of the
      files found. */
  lemma {:induction false} DailyFramesDates(codes: seq<(string, string)>, files: string -> Option<seq<Reading>>,
                                            parse: string -> Option<Calendar.Day>, k: int)
    requires DailyFrames(codes, files, parse).Ok?
    ensures InSomeFrame(DailyFrames(codes, files, parse).value, k) <==> InSomeFile(codes, files, parse, k)
  {
    if codes != [] {
      var n := |codes|;
      var init := codes[..n - 1];
      var last := codes[n - 1];
      DailyFramesLast(codes, files, parse);
      DailyFramesDates(init, files, parse, k);
      var dfs0 := DailyFrames(init, files, parse).value;
      var dfs := DailyFrames(codes, files, parse).value;
      assert InSomeFile(codes, files, parse, k) <==> InSomeFile(init, files, parse, k) || HasDate(last, files, parse, k) by {
        assert forall i :: 0 <= i < n - 1 ==> init[i] == codes[i];
        if InSomeFile(codes, files, parse, k) {
          var i :| 0 <= i < n && HasDate(codes[i], files, parse, k);
          if i < n - 1 {
            assert HasDate(init[i], files, parse, k);
          }
        }
      }
      if Found(last, files) {
        var s := Daily(files(FileOf(last.1)).value, parse).value;
        FileDates(last, files, parse, k);
        assert dfs == dfs0 + [(last.0, s)];
        assert InSomeFrame(dfs, k) <==> InSomeFrame(dfs0, k) || k in Keys(s) by {
          assert forall i :: 0 <= i < |dfs0| ==> dfs[i] == dfs0[i];
          assert dfs[|dfs0|].1 == s;
        }
      } else {
        assert !HasDate(last, files, parse, k);
      }
    }
  }

  /** `merged_df` after outer-merging each of the remaining frames in turn. */
  function MergeAll(first: Wide, rest: seq<(string, seq<Obs>)>): (r: Wide)
    requires Keyed(first)
    ensures Keyed(r) && r.names == first.names + Names(rest)
    ensures forall k :: k in RowKeys(r.rows) <==> k in RowKeys(first.rows) || InSomeFrame(rest, k)
  {
    if rest == [] then first
    else
      var n := |rest|;
      var m := MergeAll(first, rest[..n - 1]);
      assert forall i :: 0 <= i < n - 1 ==> rest[..n - 1][i] == rest[i];
      assert Names(rest) == Names(rest[..n - 1]) + [rest[n - 1].0];
      OuterMerge(m, rest[n - 1].0, rest[n - 1].1)
  }

  /** The merge of a non-empty list of frames, before sorting and filling. */
  function Merged(dfs: seq<(string, seq<Obs>)>): Wide
    requires dfs != [] && Ascending(dfs[0].1)
  {
    MergeAll(FromSeries(dfs[0].0, dfs[0].1), dfs[1..])
  }

  /** The whole function: `dfs[0]` of an empty list raises, otherwise the
      merged table is sorted by date, filled forward then backward, and rows
      with a value still missing are dropped. */
  function Loaded(codes: seq<(string, string)>, files: string -> Option<seq<Reading>>,
                  parse: string -> Option<Calendar.Day>): (r: Outcome<Wide>)
    ensures r.Ok? ==> Shaped(r.value) && forall t :: 0 <= t < |r.value.rows| ==> Complete(r.value.rows[t])
  {
    match DailyFrames(codes, files, parse)
    case Err(m) => Err(m)
    case Ok(dfs) =>
      if dfs == [] then Err("list index out of range")
      else
        var merged := Merged(dfs);
        SortKeyedIsIdentity(merged);
        var filled := FillAll(SortRows(merged));
        assert Shaped(Wide(filled.names, DropNaRows(filled.rows)));
        Ok(Wide(filled.names, DropNaRows(filled.rows)))
  }

  /** A column of the merged table has a value exactly when the frame it
      came from has one. */
  lemma {:induction false} MergeAllValue(first: Wide, rest: seq<(string, seq<Obs>)>, j: nat)
    requires Keyed(first) && forall i :: 0 <= i < |rest| ==> Ascending(rest[i].1)
    requires j < |first.names| + |rest|
    ensures HasValue(Column(MergeAll(first, rest), j)) <==>
      if j < |first.names| then HasValue(Column(first, j)) else SomeValue(rest[j - |first.names|].1)
  {
    if rest != [] {
      var n := |rest|;
      var m := MergeAll(first, rest[..n - 1]);
      MergeColumnValue(m, rest[n - 1].0, rest[n - 1].1, j);
      if j < |m.names| {
        MergeAllValue(first, rest[..n - 1], j);
      }
    }
  }

  /** Loading fails with the index error exactly when no file exists. */
  lemma LoadedFails(codes: seq<(string, string)>, files: string -> Option<seq<Reading>>,
                    parse: string -> Option<Calendar.Day>)
    requires DailyFrames(codes, files, parse).Ok?
    ensures Loaded(codes, files, parse).Err? <==> forall i :: 0 <= i < |codes| ==> !Found(codes[i], files)
    ensures Loaded(codes, files, parse).Err? ==> Loaded(codes, files, parse).msg == "list index out of range"
  {
    DailyFramesFound(codes, files, parse);
  }

  /** When every pollutant found has a value somewhere, the loaded table has
      a column per pollutant found, in order; its dates are all the parsable
      dates of all files, ascending; nothing is missing; and each column is
      the merged column filled forward then backward. */
  lemma LoadedTable(codes: seq<(string, string)>, files: string -> Option<seq<Reading>>,
                    parse: string -> Option<Calendar.Day>)
    requires DailyFrames(codes, files, parse).Ok?
    requires var dfs := DailyFrames(codes, files, parse).value;
      dfs != [] && forall i :: 0 <= i < |dfs| ==> SomeValue(dfs[i].1)
    ensures var dfs := DailyFrames(codes, files, parse).value;
      var r := Loaded(codes, files, parse);
      r.Ok? && r.value.names == Names(dfs) && Keyed(r.value) &&
      (forall t :: 0 <= t < |r.value.rows| ==> Complete(r.value.rows[t])) &&
      (forall k :: k in RowKeys(r.value.rows) <==> InSomeFile(codes, files, parse, k)) &&
      forall j :: 0 <= j < |dfs| ==> Column(r.value, j) == BFill(FFill(Column(Merged(dfs), j)))
  {
    var dfs := DailyFrames(codes, files, parse).value;
    var m := Merged(dfs);
    SortKeyedIsIdentity(m);
    MergedHasValues(dfs);
    FilledKeepsAll(m);
    MergedDates(codes, files, parse);
  }

  /** Every column of the merge has a value when every frame does. */
  lemma MergedHasValues(dfs: seq<(string, seq<Obs>)>)
    requires dfs != [] && forall i :: 0 <= i < |dfs| ==> Ascending(dfs[i].1) && SomeValue(dfs[i].1)
    ensures var m := Merged(dfs);
      m.names == Names(dfs) && forall j :: 0 <= j < |m.names| ==> HasValue(Column(m, j))
  {
    var m := Merged(dfs);
    assert Names(dfs) == [dfs[0].0] + Names(dfs[1..]);
    forall j | 0 <= j < |m.names| ensures HasValue(Column(m, j)) {
      MergeAllValue(FromSeries(dfs[0].0, dfs[0].1), dfs[1..], j);
      if j == 0 {
        FromSeriesValue(dfs[0].0, dfs[0].1);
      }
    }
  }

  /** The merge's dates are the dates found in some file. */
  lemma MergedDates(codes: seq<(string, string)>, files: string -> Option<seq<Reading>>,
                    parse: string -> Option<Calendar.Day>)
    requires DailyFrames(codes, files, parse).Ok? && DailyFrames(codes, files, parse).value != []
    ensures forall k :: k in RowKeys(Merged(DailyFrames(codes, files, parse).value).rows) <==> InSomeFile(codes, files, parse, k)
  {
    var dfs := DailyFrames(codes, files, parse).value;
    var m := Merged(dfs);
    forall k ensures k in RowKeys(m.rows) <==> InSomeFile(codes, files, parse, k) {
      DailyFramesDates(codes, files, parse, k);
      assert InSomeFrame(dfs, k) <==> k in Keys(dfs[0].1) || InSomeFrame(dfs[1..], k) by {
        if InSomeFrame(dfs, k) {
          var i :| 0 <= i < |dfs| && k in Keys(dfs[i].1);
          if i > 0 {
            assert dfs[1..][i - 1] == dfs[i];
          }
        }
        if InSomeFrame(dfs[1..], k) {
          var i :| 0 <= i < |dfs| - 1 && k in Keys(dfs[1..][i].1);
          assert dfs[i + 1] == dfs[1..][i];
        }
      }
    }
  }

  /** A pollutant found without a single value leaves an empty column after
      filling, and `dropna` then removes every row. */
  lemma LoadedEmptyColumn(codes: seq<(string, string)>, files: string -> Option<seq<Reading>>,
                          parse: string -> Option<Calendar.Day>, i: nat)
    requires DailyFrames(codes, files, parse).Ok?
    requires var dfs := DailyFrames(codes, files, parse).value;
      i < |dfs| && !SomeValue(dfs[i].1)
    ensures Loaded(codes, files, parse) == Ok(Wide(Names(DailyFrames(codes, files, parse).value), []))
  {
    LoadedValue(codes, files, parse);
    MergedEmptyColumn(DailyFrames(codes, files, parse).value, i);
  }

  /** The merge of frames one of which has no value: its names are the
      frames' names, and no row survives filling and `dropna`. */
  lemma MergedEmptyColumn(dfs: seq<(string, seq<Obs>)>, i: nat)
    requires forall j :: 0 <= j < |dfs| ==> Ascending(dfs[j].1)
    requires i < |dfs| && !SomeValue(dfs[i].1)
    ensures Merged(dfs).names == Names(dfs)
    ensures DropNaRows(FillAll(Merged(dfs)).rows) == []
  {
    MergedNames(dfs);
    MergedColumnEmpty(dfs, i);
    FilledDropsAll(Merged(dfs), i);
  }

  lemma MergedColumnEmpty(dfs: seq<(string, seq<Obs>)>, i: nat)
    requires forall j :: 0 <= j < |dfs| ==> Ascending(dfs[j].1)
    requires i < |dfs| && !SomeValue(dfs[i].1)
    ensures i < |Merged(dfs).names| && !HasValue(Column(Merged(dfs), i))
  {
    MergedNames(dfs);
    var first := FromSeries(dfs[0].0, dfs[0].1);
    var rest := dfs[1..];
    if i == 0 {
      FromSeriesValue(dfs[0].0, dfs[0].1);
    } else {
      assert rest[i - 1] == dfs[i];
    }
    MergeAllEmpty(first, rest, i);
  }

  lemma MergeAllEmpty(first: Wide, rest: seq<(string, seq<Obs>)>, j: nat)
    requires Keyed(first) && forall i :: 0 <= i < |rest| ==> Ascending(rest[i].1)
    requires j < |first.names| + |rest|
    requires if j < |first.names| then !HasValue(Column(first, j)) else !SomeValue(rest[j - |first.names|].1)
    ensures !HasValue(Column(MergeAll(first, rest), j))
  {
    MergeAllValue(first, rest, j);
  }

  /** The loaded table, once some file was found. */
  lemma LoadedValue(codes: seq<(string, string)>, files: string -> Option<seq<Reading>>,
                    parse: string -> Option<Calendar.Day>)
    requires DailyFrames(codes, files, parse).Ok? && DailyFrames(codes, files, parse).value != []
    ensures var m := Merged(DailyFrames(codes, files, parse).value);
      Loaded(codes, files, parse) == Ok(Wide(m.names, DropNaRows(FillAll(m).rows)))
  {
    SortKeyedIsIdentity(Merged(DailyFrames(codes, files, parse).value));
  }

  /** The pollutants whose file exists, in order. */
  function FoundNames(codes: seq<(string, string)>, files: string -> Option<seq<Reading>>): (ns: seq<string>)
    ensures |ns| <= |codes|
  {
    if codes == [] then []
    else
      var n := |codes|;
      FoundNames(codes[..n - 1], files) + (if Found(codes[n - 1], files) then [codes[n - 1].0] else [])
  }

  /** Only configured pollutants are found. */
  lemma {:induction false} FoundNamesFrom(codes: seq<(string, string)>, files: string -> Option<seq<Reading>>, x: string)
    requires x in FoundNames(codes, files)
    ensures x in CodeNames(codes)
  {
    var n := |codes|;
    var front := codes[..n - 1];
    assert CodeNames(codes) == CodeNames(front) + [codes[n - 1].0];
    if x != codes[n - 1].0 {
      FoundNamesFrom(front, files, x);
    }
  }

  /** The frames read are those of the pollutants whose file exists. */
  lemma {:induction false} DailyFramesNames(codes: seq<(string, string)>, files: string -> Option<seq<Reading>>,
                                            parse: string -> Option<Calendar.Day>)
    requires DailyFrames(codes, files, parse).Ok?
    ensures Names(DailyFrames(codes, files, parse).value) == FoundNames(codes, files)
  {
    if codes != [] {
      var n := |codes|;
      DailyFramesNames(codes[..n - 1], files, parse);
      var dfs := DailyFrames(codes[..n - 1], files, parse).value;
      if Found(codes[n - 1], files) {
        var r := DailyFrames(codes, files, parse).value;
        assert r == dfs + [r[|dfs|]] && r[|dfs|].0 == codes[n - 1].0;
        assert Names(r) == Names(dfs) + [codes[n - 1].0];
      }
    }
  }

  /** The merged table has one column per pollutant whose file exists, in
      the order of the configuration. */
  lemma LoadedNames(codes: seq<(string, string)>, files: string -> Option<seq<Reading>>,
                    parse: string -> Option<Calendar.Day>)
    requires Loaded(codes, files, parse).Ok?
    ensures Loaded(codes, files, parse).value.names == FoundNames(codes, files)
  {
    var dfs := DailyFrames(codes, files, parse).value;
    assert dfs != [];
    DailyFramesNames(codes, files, parse);
    LoadedValue(codes, files, parse);
    MergedNames(dfs);
  }

  lemma MergedNames(dfs: seq<(string, seq<Obs>)>)
    requires dfs != [] && Ascending(dfs[0].1)
    ensures Merged(dfs).names == Names(dfs)
  {
    assert Names(dfs) == [dfs[0].0] + Names(dfs[1..]);
  }

  /** Names of the configuration, in order. */
  function CodeNames(codes: seq<(string, string)>): (ns: seq<string>)
    ensures |ns| == |codes| && forall i :: 0 <= i < |codes| ==> ns[i] == codes[i].0
  {
    seq(|codes|, i requires 0 <= i < |codes| => codes[i].0)
  }

  /** With distinct pollutant names, a pollutant has a column exactly when
      its file exists. */
  lemma {:induction false} FoundNamesIn(codes: seq<(string, string)>, files: string -> Option<seq<Reading>>, i: nat)
    requires Unique(CodeNames(codes)) && i < |codes|
    ensures codes[i].0 in FoundNames(codes, files) <==> Found(codes[i], files)
  {
    var n := |codes|;
    var front := codes[..n - 1];
    if i < n - 1 {
      assert CodeNames(front) == CodeNames(codes)[..n - 1];
      FoundNamesIn(front, files, i);
      assert codes[i].0 != codes[n - 1].0 by {
        assert CodeNames(codes)[i] != CodeNames(codes)[n - 1];
      }
    } else if codes[i].0 in FoundNames(front, files) {
      FoundNamesFrom(front, files, codes[i].0);
      assert false;
    }
  }

  /** When every file exists every pollutant has its column, in order. */
  lemma {:induction false} FoundNamesAll(codes: seq<(string, string)>, files: string -> Option<seq<Reading>>)
    requires forall i :: 0 <= i < |codes| ==> Found(codes[i], files)
    ensures FoundNames(codes, files) == CodeNames(codes)
  {
    if codes != [] {
      var n := |codes|;
      var front := codes[..n - 1];
      FoundNamesAll(front, files);
      assert FoundNames(codes, files) == CodeNames(front) + [codes[n - 1].0];
      assert CodeNames(codes) == CodeNames(front) + [codes[n - 1].0];
    }
  }

  /** The reading loop of `load_and_merge_pollutants`: one daily frame per
      pollutant whose file exists, in order. */
  method ReadFrames(codes: seq<(string, string)>, files: string -> Option<seq<Reading>>,
                    parse: string -> Option<Calendar.Day>) returns (r: Outcome<seq<(string, seq<Obs>)>>)
    ensures r == DailyFrames(codes, files, parse)
  {
    var dfs: seq<(string, seq<Obs>)> := [];
    for i := 0 to |codes|
      invariant DailyFrames(codes[..i], files, parse) == Ok(dfs)
    {
      assert codes[..i + 1][..i] == codes[..i];
      var item := codes[i];
      var file := files(FileOf(item.1));
      if file.Some? {
        var daily := Daily(file.value, parse);
        if daily.Err? {
          DailyFramesStaysErr(codes, i + 1, files, parse);
          return Err(daily.msg);
        }
        dfs := dfs + [(item.0, daily.value)];
      }
    }
    assert codes[..|codes|] == codes;
    r := Ok(dfs);
  }

  /** The merging loop of `load_and_merge_pollutants`: the outer merge of
      the frames, left to right. */
  method MergeFrames(dfs: seq<(string, seq<Obs>)>) returns (merged: Wide)
    requires dfs != [] && Ascending(dfs[0].1)
    ensures merged == Merged(dfs)
  {
    var first := FromSeries(dfs[0].0, dfs[0].1);
    var rest := dfs[1..];
    merged := first;
    for j := 0 to |rest|
      invariant merged == MergeAll(first, rest[..j])
    {
      MergeAllStep(first, rest, j);
      merged := OuterMerge(merged, rest[j].0, rest[j].1);
    }
    assert rest[..|rest|] == rest;
  }

  /** Merging one more frame is one more outer merge. */
  lemma MergeAllStep(first: Wide, rest: seq<(string, seq<Obs>)>, j: nat)
    requires Keyed(first) && j < |rest|
    ensures Shaped(MergeAll(first, rest[..j]))
    ensures MergeAll(first, rest[..j + 1]) == OuterMerge(MergeAll(first, rest[..j]), rest[j].0, rest[j].1)
  {
    assert rest[..j + 1][..j] == rest[..j];
  }

  /** `load_and_merge_pollutants`: the loop that reads the files, then the
      loop that merges the frames. */
  method LoadAndMerge(codes: seq<(string, string)>, files: string -> Option<seq<Reading>>,
                      parse: string -> Option<Calendar.Day>) returns (r: Outcome<Wide>)
    ensures r == Loaded(codes, files, parse)
  {
    var frames := ReadFrames(codes, files, parse);
    if frames.Err? {
      return Err(frames.msg);
    }
    var dfs := frames.value;
    if dfs == [] {
      return Err("list index out of range");
    }
    var merged := MergeFrames(dfs);
    SortKeyedIsIdentity(merged);
    var filled := FillAll(SortRows(merged));
    r := Ok(Wide(filled.names, DropNaRows(filled.rows)));
  }

  // ----- create_lag_features -----

  /** `f"{col}_lag{lag}"`. */
  function LagName(c: string, l: nat): string {
    c + "_lag" + NatStr(l)
  }

  /** The frame when `create_lag_features` stops, and the column whose
      lookup failed, if one did. */
  datatype LagState = LagState(table: Wide, missing: Option<string>)

  /** Column c's lags 1..l written in turn, each `df[c].shift(lag)`. */
  function AddLags(w: Wide, c: string, l: nat): (r: Wide)
    requires Shaped(w) && c in w.names
    ensures Shaped(r) && |r.rows| == |w.rows| && c in r.names
    ensures forall x :: x in w.names ==> x in r.names
  {
    if l == 0 then w
    else
      var p := AddLags(w, c, l - 1);
      Put(p, LagName(c, l), Shift(ColumnOf(p, c), l))
  }

  /** The frame after the outer loop has seen the given columns; a column
      that is not in the frame raises `KeyError` and stops the loop. */
  function LagSteps(w: Wide, cols: seq<string>, lags: nat): (s: LagState)
    requires Shaped(w)
    ensures Shaped(s.table) && |s.table.rows| == |w.rows|
  {
    if cols == [] then LagState(w, None)
    else
      var p := LagSteps(w, cols[..|cols| - 1], lags);
      var c := cols[|cols| - 1];
      if p.missing.Some? then p
      else if c !in p.table.names then LagState(p.table, Some(c))
      else LagState(AddLags(p.table, c, lags), None)
  }

  /** What `create_lag_features` returns: the `KeyError`, or the rows with
      no missing value, renumbered. */
  function LagOutcome(s: LagState): (r: Outcome<Wide>)
    requires Shaped(s.table)
    ensures r.Ok? ==> Shaped(r.value) && forall t :: 0 <= t < |r.value.rows| ==> Complete(r.value.rows[t])
  {
    if s.missing.Some? then Err("KeyError: '" + s.missing.value + "'")
    else
      assert Shaped(Wide(s.table.names, DropNaRows(s.table.rows)));
      Ok(Wide(s.table.names, DropNaRows(s.table.rows)))
  }

  /** The only columns the loops add are lag columns, whose names hold an
      underscore. */
  lemma {:induction false} AddLagsNames(w: Wide, c: string, l: nat)
    requires Shaped(w) && c in w.names
    ensures forall x :: x in AddLags(w, c, l).names ==> x in w.names || '_' in x
  {
    if l > 0 {
      AddLagsNames(w, c, l - 1);
      assert LagName(c, l)[|c|] == '_';
    }
  }

  lemma {:induction false} LagStepsNames(w: Wide, cols: seq<string>, lags: nat)
    requires Shaped(w)
    ensures var s := LagSteps(w, cols, lags);
      (forall x :: x in w.names ==> x in s.table.names) &&
      forall x :: x in s.table.names ==> x in w.names || '_' in x
  {
    if cols != [] {
      var p := LagSteps(w, cols[..|cols| - 1], lags);
      LagStepsNames(w, cols[..|cols| - 1], lags);
      var c := cols[|cols| - 1];
      if p.missing.None? && c in p.table.names {
        AddLagsNames(p.table, c, lags);
      }
    }
  }

  /** With column names free of underscores, `create_lag_features` raises
      `KeyError` exactly when a listed column is not in the frame, and names
      the first such column. */
  lemma {:induction false} LagStepsMissing(w: Wide, cols: seq<string>, lags: nat)
    requires Shaped(w) && Plain(cols)
    ensures var s := LagSteps(w, cols, lags);
      (s.missing.None? <==> forall i :: 0 <= i < |cols| ==> cols[i] in w.names) &&
      (s.missing.Some? ==> exists i :: 0 <= i < |cols| && s.missing.value == cols[i] && cols[i] !in w.names &&
                                     forall k :: 0 <= k < i ==> cols[k] in w.names)
  {
    if cols != [] {
      var n := |cols|;
      var front := cols[..n - 1];
      assert forall i :: 0 <= i < n - 1 ==> front[i] == cols[i];
      LagStepsMissing(w, front, lags);
      var p := LagSteps(w, front, lags);
      var c := cols[n - 1];
      if p.missing.Some? {
        var i :| 0 <= i < n - 1 && p.missing.value == front[i] && front[i] !in w.names &&
                 forall k :: 0 <= k < i ==> front[k] in w.names;
        assert cols[i] == front[i];
      } else {
        LagStepsNames(w, front, lags);
        assert '_' !in c;
        assert c in p.table.names <==> c in w.names;
        if c !in w.names {
          assert forall k :: 0 <= k < n - 1 ==> cols[k] in w.names;
          assert cols[n - 1] == c;
        }
      }
    }
  }

  /** Once a lookup has failed the loop stops there. */
  lemma {:induction false} LagStepsStaysMissing(w: Wide, cols: seq<string>, lags: nat, i: nat)
    requires Shaped(w) && i <= |cols| && LagSteps(w, cols[..i], lags).missing.Some?
    ensures LagSteps(w, cols, lags) == LagSteps(w, cols[..i], lags)
    decreases |cols| - i
  {
    if i < |cols| {
      assert cols[..i + 1][..i] == cols[..i];
      LagStepsStaysMissing(w, cols, lags, i + 1);
    } else {
      assert cols[..i] == cols;
    }
  }

  /** A frame that `create_lag_features` writes its columns into. */
  class LagFrame {
    var table: Wide

    /** `merged_df.copy()`: a new frame holding the same table. */
    constructor (w: Wide)
      ensures table == w
    {
      table := w;
    }

    /** `create_lag_features(df, lags)` on this frame: for each column in
        turn, the lag columns 1..lags are written into the frame; the result
        is the frame's complete rows. */
    method CreateLagFeatures(cols: seq<string>, lags: nat) returns (r: Outcome<Wide>)
      requires Shaped(table)
      modifies this
      ensures table == LagSteps(old(table), cols, lags).table
      ensures r == LagOutcome(LagSteps(old(table), cols, lags))
    {
      ghost var w0 := table;
      for i := 0 to |cols|
        invariant LagSteps(w0, cols[..i], lags) == LagState(table, None)
      {
        assert cols[..i + 1][..i] == cols[..i];
        var col := cols[i];
        if col !in table.names {
          LagStepsStaysMissing(w0, cols, lags, i + 1);
          return Err("KeyError: '" + col + "'");
        }
        ghost var start := table;
        for lag := 1 to lags + 1
          invariant table == AddLags(start, col, lag - 1)
        {
          table := Put(table, LagName(col, lag), Shift(ColumnOf(table, col), lag));
        }
      }
      assert cols[..|cols|] == cols;
      r := Ok(Wide(table.names, DropNaRows(table.rows)));
    }
  }

  // ----- what the lag columns hold -----

  /** Column c of w shifted down l rows. */
  function LagColumn(w: Wide, c: string, l: nat): (col: seq<Option<real>>)
    requires Shaped(w) && c in w.names
    ensures |col| == |w.rows|
    ensures forall t :: 0 <= t < |w.rows| ==> col[t] == if t < l then None else ColumnOf(w, c)[t - l]
  {
    Shift(ColumnOf(w, c), l)
  }

  /** The lag column names of (column, lag) pairs. */
  function LagNames(ps: seq<(string, nat)>): (ns: seq<string>)
    ensures |ns| == |ps| && forall p :: 0 <= p < |ps| ==> ns[p] == LagName(ps[p].0, ps[p].1)
  {
    seq(|ps|, p requires 0 <= p < |ps| => LagName(ps[p].0, ps[p].1))
  }

  /** Every pair names a column of w. */
  predicate Over(w: Wide, ps: seq<(string, nat)>) {
    forall p :: 0 <= p < |ps| ==> ps[p].0 in w.names
  }

  /** Row t's values of the lag columns of ps. */
  function LagCells(w: Wide, ps: seq<(string, nat)>, t: nat): (cells: seq<Option<real>>)
    requires Shaped(w) && Over(w, ps) && t < |w.rows|
    ensures |cells| == |ps| && forall p :: 0 <= p < |ps| ==> cells[p] == LagColumn(w, ps[p].0, ps[p].1)[t]
  {
    seq(|ps|, p requires 0 <= p < |ps| => LagColumn(w, ps[p].0, ps[p].1)[t])
  }

  lemma LagCellsSnoc(w: Wide, ps: seq<(string, nat)>, c: string, l: nat, t: nat)
    requires Shaped(w) && Over(w, ps) && c in w.names && t < |w.rows|
    ensures Over(w, ps + [(c, l)])
    ensures LagCells(w, ps + [(c, l)], t) == LagCells(w, ps, t) + [LagColumn(w, c, l)[t]]
  {
    var ps2 := ps + [(c, l)];
    assert forall p :: 0 <= p < |ps| ==> ps2[p] == ps[p];
  }

  /** w with the lag column of each pair appended, in order: the reference
      definition of what the loops build. */
  function Extended(w: Wide, ps: seq<(string, nat)>): (r: Wide)
    requires Shaped(w) && Over(w, ps)
    ensures Shaped(r) && r.names == w.names + LagNames(ps) && RowKeys(r.rows) == RowKeys(w.rows)
    ensures forall t :: 0 <= t < |w.rows| ==> r.rows[t].vals == w.rows[t].vals + LagCells(w, ps, t)
  {
    var rows := seq(|w.rows|, t requires 0 <= t < |w.rows| => WRow(w.rows[t].key, w.rows[t].vals + LagCells(w, ps, t)));
    assert RowKeys(rows) == RowKeys(w.rows);
    Wide(w.names + LagNames(ps), rows)
  }

  /** Each cell of the reference table: an original column keeps its value,
      the lag column of (c, l) holds column c shifted down l rows. */
  lemma ExtendedCell(w: Wide, ps: seq<(string, nat)>, t: nat, j: nat)
    requires Shaped(w) && Over(w, ps) && t < |w.rows| && j < |w.names| + |ps|
    ensures Extended(w, ps).rows[t].vals[j] ==
      if j < |w.names| then w.rows[t].vals[j]
      else LagColumn(w, ps[j - |w.names|].0, ps[j - |w.names|].1)[t]
  {
  }

  /** The original columns of the reference table are those of w. */
  lemma ExtendedColumn(w: Wide, ps: seq<(string, nat)>, c: string)
    requires Shaped(w) && Over(w, ps) && c in w.names
    ensures ColumnOf(Extended(w, ps), c) == ColumnOf(w, c)
  {
    var e := Extended(w, ps);
    FindPrefix(w.names, LagNames(ps), c);
    var k := Frames.Find(w.names, c);
    forall t | 0 <= t < |w.rows| ensures ColumnOf(e, c)[t] == ColumnOf(w, c)[t] {
      assert e.rows[t].vals[k] == w.rows[t].vals[k];
    }
  }

  /** Writing one more fresh lag column extends the reference table by it. */
  lemma ExtendedStep(w: Wide, ps: seq<(string, nat)>, c: string, l: nat)
    requires Shaped(w) && Over(w, ps) && c in w.names
    requires LagName(c, l) !in w.names + LagNames(ps)
    ensures Over(w, ps + [(c, l)])
    ensures var e := Extended(w, ps);
      Put(e, LagName(c, l), Shift(ColumnOf(e, c), l)) == Extended(w, ps + [(c, l)])
  {
    var e := Extended(w, ps);
    var ps2 := ps + [(c, l)];
    assert Over(w, ps2) by {
      assert forall p :: 0 <= p < |ps| ==> ps2[p] == ps[p];
    }
    var e2 := Extended(w, ps2);
    ExtendedColumn(w, ps, c);
    var col := LagColumn(w, c, l);
    var r := Put(e, LagName(c, l), col);
    assert LagNames(ps2) == LagNames(ps) + [LagName(c, l)];
    assert r.names == e2.names;
    forall t | 0 <= t < |w.rows| ensures r.rows[t] == e2.rows[t] {
      LagCellsSnoc(w, ps, c, l, t);
      assert r.rows[t].key == RowKeys(r.rows)[t] == RowKeys(e2.rows)[t] == e2.rows[t].key;
    }
  }

  /** The pairs (c, 1) .. (c, l). */
  function LagRun(c: string, l: nat): (ps: seq<(string, nat)>)
    ensures |ps| == l && forall m :: 0 <= m < l ==> ps[m] == (c, m + 1)
  {
    seq(l, m requires 0 <= m < l => (c, m + 1))
  }

  lemma RunSnoc(c: string, l: nat)
    requires l > 0
    ensures LagRun(c, l - 1) + [(c, l)] == LagRun(c, l)
  {
  }

  /** The (column, lag) pairs in the order the two loops write them. */
  function LagPairs(cols: seq<string>, lags: nat): (ps: seq<(string, nat)>)
    ensures forall p :: 0 <= p < |ps| ==> ps[p].0 in cols && 1 <= ps[p].1 <= lags
  {
    if cols == [] then []
    else LagPairs(cols[..|cols| - 1], lags) + LagRun(cols[|cols| - 1], lags)
  }

  /** The first pairs are the first column's lags. */
  lemma {:induction false} LagPairsFirst(cols: seq<string>, lags: nat)
    requires cols != []
    ensures |LagPairs(cols, lags)| >= lags && LagPairs(cols, lags)[..lags] == LagRun(cols[0], lags)
  {
    if |cols| > 1 {
      LagPairsFirst(cols[..|cols| - 1], lags);
    } else {
      assert LagPairs(cols[..0], lags) == [];
    }
  }

  /** No column name holds an underscore. */
  predicate Plain(names: seq<string>) {
    forall i :: 0 <= i < |names| ==> '_' !in names[i]
  }

  /** Lag names of one-digit lags name their column and lag uniquely. */
  lemma LagNameInjective(c1: string, l1: nat, c2: string, l2: nat)
    requires l1 < 10 && l2 < 10 && LagName(c1, l1) == LagName(c2, l2)
    ensures c1 == c2 && l1 == l2
  {
    var s := LagName(c1, l1);
    assert c1 == s[..|c1|] && c2 == s[..|c2|];
    assert Digit(l1) == s[|s| - 1] == Digit(l2);
  }

  /** A lag name holds an underscore, so it is no plain column's name. */
  lemma LagNameNotPlain(names: seq<string>, c: string, l: nat)
    requires Plain(names)
    ensures LagName(c, l) !in names
  {
    assert LagName(c, l)[|c|] == '_';
  }

  /** A one-digit lag name not among the pairs is a new column. */
  lemma LagNameFresh(names: seq<string>, ps: seq<(string, nat)>, c: string, l: nat)
    requires Plain(names) && l < 10
    requires forall p :: 0 <= p < |ps| ==> ps[p].1 < 10 && ps[p] != (c, l)
    ensures LagName(c, l) !in names + LagNames(ps)
  {
    LagNameNotPlain(names, c, l);
    forall p | 0 <= p < |ps| ensures LagName(c, l) != LagNames(ps)[p] {
      if LagName(c, l) == LagName(ps[p].0, ps[p].1) {
        LagNameInjective(c, l, ps[p].0, ps[p].1);
      }
    }
  }

  /** The inner loop on the reference table: lags 1..l of a column not yet
      lagged extend it by those lag columns. */
  lemma {:induction false} AddLagsExtended(w: Wide, ps: seq<(string, nat)>, c: string, l: nat)
    requires Shaped(w) && Over(w, ps) && c in w.names && Plain(w.names) && l < 10
    requires forall p :: 0 <= p < |ps| ==> ps[p].0 != c && ps[p].1 < 10
    ensures Over(w, ps + LagRun(c, l))
    ensures AddLags(Extended(w, ps), c, l) == Extended(w, ps + LagRun(c, l))
  {
    if l == 0 {
      assert ps + LagRun(c, 0) == ps;
    } else {
      AddLagsExtended(w, ps, c, l - 1);
      var ps1 := ps + LagRun(c, l - 1);
      RunFresh(ps, c, l);
      LagNameFresh(w.names, ps1, c, l);
      ExtendedStep(w, ps1, c, l);
      RunSnoc(c, l);
      assert ps1 + [(c, l)] == ps + LagRun(c, l);
    }
  }

  /** Before lag l is written, none of the pairs is (c, l). */
  lemma RunFresh(ps: seq<(string, nat)>, c: string, l: nat)
    requires 0 < l < 10 && forall p :: 0 <= p < |ps| ==> ps[p].0 != c && ps[p].1 < 10
    ensures var ps1 := ps + LagRun(c, l - 1);
      forall p :: 0 <= p < |ps1| ==> ps1[p].1 < 10 && ps1[p] != (c, l)
  {
    var ps1 := ps + LagRun(c, l - 1);
    forall p | 0 <= p < |ps1| ensures ps1[p].1 < 10 && ps1[p] != (c, l) {
      if p >= |ps| {
        assert ps1[p] == (c, p - |ps| + 1);
      } else {
        assert ps1[p] == ps[p];
      }
    }
  }

  /** The column names are distinct. */
  predicate Unique(cols: seq<string>) {
    forall i, j :: 0 <= i < j < |cols| ==> cols[i] != cols[j]
  }

  /** On a table of plain column names holding every listed (distinct)
      column, and with one-digit lags, the loops write exactly the reference
      table: every lag column of every listed column, appended in order. */
  lemma {:induction false} LaggedExtended(w: Wide, cols: seq<string>, lags: nat)
    requires Shaped(w) && Plain(w.names) && lags < 10 && Unique(cols)
    requires forall i :: 0 <= i < |cols| ==> cols[i] in w.names
    ensures LagSteps(w, cols, lags) == LagState(Extended(w, LagPairs(cols, lags)), None)
  {
    if cols != [] {
      var n := |cols|;
      var init := cols[..n - 1];
      var ps := LagPairs(init, lags);
      var c := cols[n - 1];
      assert Unique(init) && forall i :: 0 <= i < n - 1 ==> init[i] in w.names;
      LaggedExtended(w, init, lags);
      assert forall p :: 0 <= p < |ps| ==> ps[p].0 != c;
      assert Over(w, ps);
      assert c in Extended(w, ps).names;
      AddLagsExtended(w, ps, c, lags);
      assert LagPairs(cols, lags) == ps + LagRun(c, lags);
    } else {
      var e := Extended(w, []);
      assert e.names == w.names;
      forall t | 0 <= t < |w.rows| ensures e.rows[t] == w.rows[t] {
        assert e.rows[t].vals == w.rows[t].vals;
      }
      assert e.rows == w.rows;
    }
  }

  /** The rows `create_lag_features` keeps. */
  function Kept(w: Wide, lags: nat): nat {
    if |w.rows| >= lags then |w.rows| - lags else 0
  }

  /** On a complete table of plain column names holding every listed
      (distinct) column, with one to nine lags, `create_lag_features`
      succeeds and returns the reference table without its first `lags`
      rows. */
  lemma LagTable(w: Wide, cols: seq<string>, lags: nat)
    requires Shaped(w) && Plain(w.names) && 1 <= lags < 10 && Unique(cols) && cols != []
    requires forall i :: 0 <= i < |cols| ==> cols[i] in w.names
    requires forall t :: 0 <= t < |w.rows| ==> Complete(w.rows[t])
    ensures var ps := LagPairs(cols, lags);
      var e := Extended(w, ps);
      LagOutcome(LagSteps(w, cols, lags)) == Ok(Wide(e.names, e.rows[|w.rows| - Kept(w, lags)..]))
  {
    var ps := LagPairs(cols, lags);
    LaggedExtended(w, cols, lags);
    var e := Extended(w, ps);
    var L := |w.rows| - Kept(w, lags);
    forall t | 0 <= t < L ensures !Complete(e.rows[t]) {
      ExtendedEarlyIncomplete(w, cols, lags, t);
    }
    forall t | L <= t < |w.rows| ensures Complete(e.rows[t]) {
      ExtendedLateComplete(w, ps, lags, t);
    }
    DropNaSplit(e.rows, L);
  }

  /** out is w with the lag columns of ps appended and its first `lags`
      rows dropped: output row t holds input row t + lags, the original
      columns keep their values, and the lag column of (c, l) holds column
      c at input row t + lags - l. */
  predicate LagShifted(w: Wide, ps: seq<(string, nat)>, lags: nat, out: Wide)
    requires Shaped(w) && Over(w, ps)
    requires forall p :: 0 <= p < |ps| ==> ps[p].1 <= lags
  {
    out.names == w.names + LagNames(ps) && |out.rows| == Kept(w, lags) &&
    forall t :: 0 <= t < |out.rows| ==> ShiftedRow(w, ps, lags, t + lags, out.rows[t])
  }

  /** row is input row u with the lag columns of ps appended. */
  predicate ShiftedRow(w: Wide, ps: seq<(string, nat)>, lags: nat, u: nat, row: WRow)
    requires Shaped(w) && Over(w, ps) && lags <= u < |w.rows|
    requires forall p :: 0 <= p < |ps| ==> ps[p].1 <= lags
  {
    |row.vals| == |w.names| + |ps| && row.key == w.rows[u].key &&
    forall j :: 0 <= j < |w.names| + |ps| ==>
      row.vals[j] == if j < |w.names| then w.rows[u].vals[j]
                     else ColumnOf(w, ps[j - |w.names|].0)[u - ps[j - |w.names|].1]
  }

  /** What the lagged table holds, when `create_lag_features` succeeds. */
  lemma LagFeatures(w: Wide, cols: seq<string>, lags: nat)
    requires Shaped(w) && Plain(w.names) && 1 <= lags < 10 && Unique(cols) && cols != []
    requires forall i :: 0 <= i < |cols| ==> cols[i] in w.names
    requires forall t :: 0 <= t < |w.rows| ==> Complete(w.rows[t])
    ensures var r := LagOutcome(LagSteps(w, cols, lags));
      r.Ok? && LagShifted(w, LagPairs(cols, lags), lags, r.value)
  {
    var ps := LagPairs(cols, lags);
    LagTable(w, cols, lags);
    LagTail(w, ps, lags);
  }

  /** The reference table without its first `lags` rows. */
  lemma LagTail(w: Wide, ps: seq<(string, nat)>, lags: nat)
    requires Shaped(w) && Over(w, ps)
    requires forall p :: 0 <= p < |ps| ==> ps[p].1 <= lags
    ensures var e := Extended(w, ps);
      LagShifted(w, ps, lags, Wide(e.names, e.rows[|w.rows| - Kept(w, lags)..]))
  {
    var e := Extended(w, ps);
    var start := |w.rows| - Kept(w, lags);
    var out := Wide(e.names, e.rows[start..]);
    LagTailRows(w, ps, lags);
    assert |out.rows| == Kept(w, lags);
    assert Kept(w, lags) > 0 ==> start == lags;
    assert forall t :: 0 <= t < |out.rows| ==> out.rows[t] == e.rows[t + lags];
  }

  lemma LagTailRows(w: Wide, ps: seq<(string, nat)>, lags: nat)
    requires Shaped(w) && Over(w, ps)
    requires forall p :: 0 <= p < |ps| ==> ps[p].1 <= lags
    ensures forall u :: lags <= u < |w.rows| ==> ShiftedRow(w, ps, lags, u, Extended(w, ps).rows[u])
  {
    forall u | lags <= u < |w.rows| ensures ShiftedRow(w, ps, lags, u, Extended(w, ps).rows[u]) {
      LagTailRow(w, ps, lags, u);
    }
  }

  /** One row of the reference table past the largest lag, with its key. */
  lemma LagTailRow(w: Wide, ps: seq<(string, nat)>, lags: nat, u: nat)
    requires Shaped(w) && Over(w, ps) && lags <= u < |w.rows|
    requires forall p :: 0 <= p < |ps| ==> ps[p].1 <= lags
    ensures ShiftedRow(w, ps, lags, u, Extended(w, ps).rows[u])
  {
    var e := Extended(w, ps);
    LagEntries(w, ps, lags, u);
    assert RowKeys(e.rows)[u] == RowKeys(w.rows)[u];
    assert |e.names| == |w.names| + |ps|;
  }

  /** One row of the reference table at or past the largest lag. */
  lemma LagEntries(w: Wide, ps: seq<(string, nat)>, lags: nat, u: nat)
    requires Shaped(w) && Over(w, ps) && lags <= u < |w.rows|
    requires forall p :: 0 <= p < |ps| ==> ps[p].1 <= lags
    ensures forall j :: 0 <= j < |w.names| + |ps| ==>
      Extended(w, ps).rows[u].vals[j] == if j < |w.names| then w.rows[u].vals[j]
                                         else ColumnOf(w, ps[j - |w.names|].0)[u - ps[j - |w.names|].1]
  {
    var e := Extended(w, ps);
    forall j | 0 <= j < |w.names| + |ps|
      ensures e.rows[u].vals[j] == if j < |w.names| then w.rows[u].vals[j]
                                   else ColumnOf(w, ps[j - |w.names|].0)[u - ps[j - |w.names|].1]
    {
      ExtendedCell(w, ps, u, j);
    }
  }

  /** In the first `lags` rows the first column's last lag is missing. */
  lemma ExtendedEarlyIncomplete(w: Wide, cols: seq<string>, lags: nat, t: nat)
    requires Shaped(w) && cols != [] && lags >= 1 && forall i :: 0 <= i < |cols| ==> cols[i] in w.names
    requires t < lags && t < |w.rows|
    ensures !Complete(Extended(w, LagPairs(cols, lags)).rows[t])
  {
    var ps := LagPairs(cols, lags);
    var j := |w.names| + lags - 1;
    LastFirstLag(cols, lags);
    var p := ps[j - |w.names|];
    assert p == (cols[0], lags);
    ExtendedCell(w, ps, t, j);
    var row := Extended(w, ps).rows[t];
    assert row.vals[j] == LagColumn(w, cols[0], lags)[t];
    assert LagColumn(w, cols[0], lags)[t] == None;
    MissingCell(row, j);
  }

  /** Pair lags - 1 is the first column's last lag. */
  lemma LastFirstLag(cols: seq<string>, lags: nat)
    requires cols != [] && lags >= 1
    ensures |LagPairs(cols, lags)| >= lags && LagPairs(cols, lags)[lags - 1] == (cols[0], lags)
  {
    var ps := LagPairs(cols, lags);
    LagPairsFirst(cols, lags);
    assert ps[lags - 1] == ps[..lags][lags - 1];
  }

  /** A row with a missing value is incomplete. */
  lemma MissingCell(row: WRow, j: nat)
    requires j < |row.vals| && row.vals[j] == None
    ensures !Complete(row)
  {
  }

  /** From row `lags` on, on a complete table, every value is present. */
  lemma ExtendedLateComplete(w: Wide, ps: seq<(string, nat)>, lags: nat, t: nat)
    requires Shaped(w) && Over(w, ps) && forall p :: 0 <= p < |ps| ==> ps[p].1 <= lags
    requires forall u :: 0 <= u < |w.rows| ==> Complete(w.rows[u])
    requires lags <= t < |w.rows|
    ensures Complete(Extended(w, ps).rows[t])
  {
    var e := Extended(w, ps);
    var W := |w.names|;
    forall j | 0 <= j < W + |ps| ensures e.rows[t].vals[j].Some? {
      ExtendedCell(w, ps, t, j);
      if j >= W {
        var c := ps[j - W].0;
        var u := t - ps[j - W].1;
        assert Frames.Find(w.names, c) < W;
        assert ColumnOf(w, c)[u] == w.rows[u].vals[Frames.Find(w.names, c)];
      }
    }
  }

  // ----- feature selection -----

  /** The positions of the columns whose name contains "lag", in order:
      `[col for col in df.columns if "lag" in col]`. */
  function LagFeatureCols(names: seq<string>): (fs: seq<nat>)
    ensures forall m :: 0 <= m < |fs| ==> fs[m] < |names|
  {
    if names == [] then []
    else
      var n := |names|;
      assert forall j :: 0 <= j < n - 1 ==> names[..n - 1][j] == names[j];
      LagFeatureCols(names[..n - 1]) + (if Contains(names[n - 1], "lag") then [n - 1] else [])
  }

  /** The feature columns are exactly the positions, in order, of the names
      containing "lag". */
  lemma {:induction false} LagFeatureColsExact(names: seq<string>)
    ensures forall m :: 0 <= m < |LagFeatureCols(names)| ==> Contains(names[LagFeatureCols(names)[m]], "lag")
    ensures forall j :: 0 <= j < |names| && Contains(names[j], "lag") ==> j in LagFeatureCols(names)
  {
    if names != [] {
      var n := |names|;
      var front := names[..n - 1];
      LagFeatureColsExact(front);
      assert forall j :: 0 <= j < n - 1 ==> front[j] == names[j];
    }
  }

  /** Every lag name contains "lag". */
  lemma LagNameHasLag(c: string, l: nat)
    ensures Contains(LagName(c, l), "lag")
  {
    assert LagName(c, l) == (c + "_") + "lag" + NatStr(l);
    ContainsMiddle(c + "_", "lag", NatStr(l));
  }

  /** A name without a lower-case l does not contain "lag". */
  lemma NoLag(name: string)
    requires 'l' !in name
    ensures !Contains(name, "lag")
  {
    NotContainsWithoutHead(name, "lag");
  }

  /** The positions lo, lo + 1, ..., lo + n - 1. */
  function Range(lo: nat, n: nat): (r: seq<nat>)
    ensures |r| == n && forall p :: 0 <= p < n ==> r[p] == lo + p
  {
    seq(n, p requires 0 <= p < n => lo + p)
  }

  /** Names none of which contains "lag" give no feature. */
  lemma {:induction false} NoFeatures(a: seq<string>)
    requires forall i :: 0 <= i < |a| ==> !Contains(a[i], "lag")
    ensures LagFeatureCols(a) == []
  {
    if a != [] {
      var n := |a|;
      NoFeatures(a[..n - 1]);
    }
  }

  /** When no column of a contains "lag" and every column of b does, the
      features are exactly b's columns, in order. */
  lemma {:induction false} FeaturesAreSuffix(a: seq<string>, b: seq<string>)
    requires forall i :: 0 <= i < |a| ==> !Contains(a[i], "lag")
    requires forall i :: 0 <= i < |b| ==> Contains(b[i], "lag")
    ensures LagFeatureCols(a + b) == Range(|a|, |b|)
  {
    if b == [] {
      assert a + b == a;
      NoFeatures(a);
    } else {
      var n := |b|;
      FeaturesAreSuffix(a, b[..n - 1]);
      var ab := a + b;
      assert ab[..|a| + n - 1] == a + b[..n - 1];
      assert ab[|a| + n - 1] == b[n - 1];
      assert LagFeatureCols(ab) == LagFeatureCols(a + b[..n - 1]) + [|a| + n - 1];
      assert Range(|a|, n) == Range(|a|, n - 1) + [|a| + n - 1];
    }
  }

  // ----- split and evaluation -----

  /** One row of `metrics_summary`. MAPE may be infinite or NaN: it has no
      guard against a zero actual value. */
  datatype MultiRow = MultiRow(pollutant: string, rmse: real, mae: real, mape: Ext)

  /** `test_size=0.2`: the test set takes ceil(n / 5) rows. */
  function TestSize(n: nat): (k: nat)
    ensures k <= n && 5 * k >= n && 5 * k < n + 5
    ensures n >= 2 ==> 1 <= k < n
  {
    (n + 4) / 5
  }

  /** `evaluate_forecast`: RMSE and MAE rounded to 4 places; MAPE as the
      pandas mean of |(y - p) / y|, times 100, rounded to 2. The metric
      helpers reject empty or unequal arrays first. */
  function Evaluate(ys: seq<real>, ps: seq<real>, sqrt: real -> real, round: (real, int) -> real): (r: Outcome<(real, real, Ext)>)
    ensures r.Ok? <==> |ys| == |ps| > 0
  {
    match Score(ys, ps, SkEps)
    case Err(m) => Err(m)
    case Ok(sc) => Ok((round(sqrt(sc.mse), 4), round(sc.mae, 4), RoundExt(PandasMape(ys, ps), round, 2)))
  }

  /** Without rounding, RMSE squares back to MSE, MAE is the mean absolute
      error, and MAPE agrees with scikit-learn's when no actual value is
      near zero; a zero actual value with a non-zero error makes it
      infinite. */
  lemma EvaluateExact(ys: seq<real>, ps: seq<real>, sqrt: real -> real, round: (real, int) -> real)
    requires |ys| == |ps| > 0 && IsSqrt(sqrt)
    requires forall x, d :: round(x, d) == x
    ensures var e := Evaluate(ys, ps, sqrt, round).value;
      e.0 >= 0.0 && e.0 * e.0 == Mse(ys, ps) && e.1 == Mae(ys, ps) && e.2 == PandasMape(ys, ps)
    ensures (forall i :: 0 <= i < |ys| ==> Abs(ys[i]) >= SkEps) ==>
      Evaluate(ys, ps, sqrt, round).value.2 == Fin(SkMape(ys, ps, SkEps) * 100.0)
    ensures (exists i :: 0 <= i < |ys| && ys[i] == 0.0 && ps[i] != 0.0) ==>
      Evaluate(ys, ps, sqrt, round).value.2 == PosInf
  {
    RmseZeroIffExact(ys, ps, sqrt);
    if forall i :: 0 <= i < |ys| ==> Abs(ys[i]) >= SkEps {
      PandasMapeAgreesWithSklearn(ys, ps, SkEps);
    }
    if exists i :: 0 <= i < |ys| && ys[i] == 0.0 && ps[i] != 0.0 {
      var i :| 0 <= i < |ys| && ys[i] == 0.0 && ps[i] != 0.0;
      PandasMapeZeroActual(ys, ps, i);
    }
  }

  /** The values of a complete row at the given positions. */
  function Pick(row: WRow, js: seq<nat>): (v: seq<real>)
    requires Complete(row) && forall m :: 0 <= m < |js| ==> js[m] < |row.vals|
    ensures |v| == |js| && forall m :: 0 <= m < |js| ==> Some(v[m]) == row.vals[js[m]]
  {
    seq(|js|, m requires 0 <= m < |js| => row.vals[js[m]].value)
  }

  /** `df[feature_cols]` as a matrix of values. */
  function FeatureMatrix(out: Wide): (x: seq<seq<real>>)
    requires Shaped(out) && forall t :: 0 <= t < |out.rows| ==> Complete(out.rows[t])
    ensures |x| == |out.rows|
    ensures forall t :: 0 <= t < |x| ==> (|x[t]| == |LagFeatureCols(out.names)| &&
      forall m :: 0 <= m < |x[t]| ==> Some(x[t][m]) == out.rows[t].vals[LagFeatureCols(out.names)[m]])
  {
    var fs := LagFeatureCols(out.names);
    seq(|out.rows|, t requires 0 <= t < |out.rows| => Pick(out.rows[t], fs))
  }

  /** `df[target]` as values. */
  function TargetColumn(out: Wide, target: string): (y: seq<real>)
    requires Shaped(out) && target in out.names
    requires forall t :: 0 <= t < |out.rows| ==> Complete(out.rows[t])
    ensures |y| == |out.rows| && forall t :: 0 <= t < |y| ==> Some(y[t]) == ColumnOf(out, target)[t]
  {
    var j := Frames.Find(out.names, target);
    seq(|out.rows|, t requires 0 <= t < |out.rows| => Pick(out.rows[t], [j])[0])
  }

  /** One turn of the forecasting loop on the lagged table: the target
      column, the lag features, the unshuffled split that holds out the last
      ceil(n / 5) rows, the fitted regressor's predictions and the
      evaluation. */
  function ForecastTarget(out: Wide, target: string, model: XgboostUnivariate.Regressor,
                          sqrt: real -> real, round: (real, int) -> real): (r: Outcome<MultiRow>)
    requires Shaped(out) && forall t :: 0 <= t < |out.rows| ==> Complete(out.rows[t])
    ensures r.Ok? ==> r.value.pollutant == target
  {
    if target !in out.names then Err("KeyError: '" + target + "'")
    else
      var n := |out.rows|;
      var nTrain := n - TestSize(n);
      if nTrain == 0 then Err("the resulting train set will be empty")
      else
        var x := FeatureMatrix(out);
        var y := TargetColumn(out, target);
        match model(x[..nTrain], y[..nTrain], x[nTrain..])
        case Err(m) => Err(m)
        case Ok(pred) =>
          match Evaluate(y[nTrain..], pred, sqrt, round)
          case Err(m) => Err(m)
          case Ok(e) => Ok(MultiRow(target, e.0, e.1, e.2))
  }

  /** A target is scored exactly when its column exists, there are at least
      two rows, and the regressor returns one prediction per held-out row;
      the held-out targets are the last ceil(n / 5) values of the column. */
  lemma ForecastTargetScores(out: Wide, target: string, model: XgboostUnivariate.Regressor,
                             sqrt: real -> real, round: (real, int) -> real)
    requires Shaped(out) && forall t :: 0 <= t < |out.rows| ==> Complete(out.rows[t])
    ensures ForecastTarget(out, target, model, sqrt, round).Ok? <==>
      target in out.names && |out.rows| >= 2 &&
      var n := |out.rows|;
      var nTrain := n - TestSize(n);
      var x := FeatureMatrix(out);
      var y := TargetColumn(out, target);
      model(x[..nTrain], y[..nTrain], x[nTrain..]).Ok? &&
      |model(x[..nTrain], y[..nTrain], x[nTrain..]).value| == TestSize(n)
  {
  }

  /** On the lagged table of a complete table whose column names are plain
      and free of "lag": the features are exactly the lag columns, in
      order; a sample's feature for (c, l) is column c l rows before the
      sample's own row, and its target is the target column at that row.
      No feature reads the day it predicts. */
  lemma FeaturesArePast(w: Wide, cols: seq<string>, lags: nat, target: string)
    requires Shaped(w) && Plain(w.names) && 1 <= lags < 10 && Unique(cols) && cols != []
    requires forall i :: 0 <= i < |cols| ==> cols[i] in w.names
    requires forall i :: 0 <= i < |w.names| ==> !Contains(w.names[i], "lag")
    requires forall t :: 0 <= t < |w.rows| ==> Complete(w.rows[t])
    requires target in w.names
    ensures var r := LagOutcome(LagSteps(w, cols, lags));
      r.Ok? && SamplesArePast(w, LagPairs(cols, lags), lags, target, r.value)
  {
    LagFeatures(w, cols, lags);
    var out := LagOutcome(LagSteps(w, cols, lags)).value;
    LagSamples(w, LagPairs(cols, lags), lags, target, out);
  }

  /** The samples drawn from out: features exactly the lag columns, a
      feature for (c, l) being column c of w l rows before the sample's own
      row, and the target being the target column of w at that row. */
  predicate SamplesArePast(w: Wide, ps: seq<(string, nat)>, lags: nat, target: string, out: Wide)
    requires Shaped(w) && target in w.names
    requires Shaped(out) && forall t :: 0 <= t < |out.rows| ==> Complete(out.rows[t])
  {
    LagFeatureCols(out.names) == Range(|w.names|, |ps|) && |out.rows| == Kept(w, lags) &&
    target in out.names &&
    forall t :: 0 <= t < |out.rows| ==>
      Some(TargetColumn(out, target)[t]) == ColumnOf(w, target)[t + lags] &&
      forall m :: 0 <= m < |ps| ==>
        ps[m].0 in w.names && 1 <= ps[m].1 <= lags &&
        Some(FeatureMatrix(out)[t][m]) == ColumnOf(w, ps[m].0)[t + lags - ps[m].1]
  }

  lemma LagSamples(w: Wide, ps: seq<(string, nat)>, lags: nat, target: string, out: Wide)
    requires Shaped(w) && Over(w, ps) && target in w.names
    requires forall p :: 0 <= p < |ps| ==> 1 <= ps[p].1 <= lags
    requires forall i :: 0 <= i < |w.names| ==> !Contains(w.names[i], "lag")
    requires Shaped(out) && forall t :: 0 <= t < |out.rows| ==> Complete(out.rows[t])
    requires LagShifted(w, ps, lags, out)
    ensures SamplesArePast(w, ps, lags, target, out)
  {
    LagFeatureColsOf(w, ps, lags, out);
    forall t | 0 <= t < |out.rows|
      ensures Some(TargetColumn(out, target)[t]) == ColumnOf(w, target)[t + lags]
    {
      TargetEntry(w, ps, lags, target, out, t);
    }
    forall t, m | 0 <= t < |out.rows| && 0 <= m < |ps|
      ensures Some(FeatureMatrix(out)[t][m]) == ColumnOf(w, ps[m].0)[t + lags - ps[m].1]
    {
      FeatureEntry(w, ps, lags, out, t, m);
    }
  }

  /** The feature columns of the lagged table are exactly its lag columns. */
  lemma LagFeatureColsOf(w: Wide, ps: seq<(string, nat)>, lags: nat, out: Wide)
    requires Shaped(w) && Over(w, ps)
    requires forall p :: 0 <= p < |ps| ==> 1 <= ps[p].1 <= lags
    requires forall i :: 0 <= i < |w.names| ==> !Contains(w.names[i], "lag")
    requires LagShifted(w, ps, lags, out)
    ensures LagFeatureCols(out.names) == Range(|w.names|, |ps|)
  {
    forall i | 0 <= i < |ps| ensures Contains(LagNames(ps)[i], "lag") {
      LagNameHasLag(ps[i].0, ps[i].1);
    }
    FeaturesAreSuffix(w.names, LagNames(ps));
  }

  /** One target value of one sample. */
  lemma TargetEntry(w: Wide, ps: seq<(string, nat)>, lags: nat, target: string, out: Wide, t: nat)
    requires Shaped(w) && Over(w, ps) && target in w.names
    requires forall p :: 0 <= p < |ps| ==> 1 <= ps[p].1 <= lags
    requires Shaped(out) && forall t :: 0 <= t < |out.rows| ==> Complete(out.rows[t])
    requires LagShifted(w, ps, lags, out)
    requires t < |out.rows|
    ensures target in out.names
    ensures Some(TargetColumn(out, target)[t]) == ColumnOf(w, target)[t + lags]
  {
    FindPrefix(w.names, LagNames(ps), target);
    var j := Frames.Find(w.names, target);
    assert j < |w.names|;
    assert Some(TargetColumn(out, target)[t]) == out.rows[t].vals[j];
  }

  /** One feature value of one sample. */
  lemma FeatureEntry(w: Wide, ps: seq<(string, nat)>, lags: nat, out: Wide, t: nat, m: nat)
    requires Shaped(w) && Over(w, ps)
    requires forall p :: 0 <= p < |ps| ==> 1 <= ps[p].1 <= lags
    requires Shaped(out) && forall t :: 0 <= t < |out.rows| ==> Complete(out.rows[t])
    requires LagShifted(w, ps, lags, out)
    requires LagFeatureCols(out.names) == Range(|w.names|, |ps|)
    requires t < |out.rows| && m < |ps|
    ensures Some(FeatureMatrix(out)[t][m]) == ColumnOf(w, ps[m].0)[t + lags - ps[m].1]
  {
    ShiftedAt(w, ps, lags, out, t);
    assert LagFeatureCols(out.names)[m] == |w.names| + m;
    FeatureCell(out, t, m);
    LagValue(w, ps, lags, t + lags, out.rows[t], m);
  }

  /** Output row t of a shifted table is input row t + lags, shifted. */
  lemma ShiftedAt(w: Wide, ps: seq<(string, nat)>, lags: nat, out: Wide, t: nat)
    requires Shaped(w) && Over(w, ps)
    requires forall p :: 0 <= p < |ps| ==> 1 <= ps[p].1 <= lags
    requires LagShifted(w, ps, lags, out) && t < |out.rows|
    ensures t + lags < |w.rows| && ShiftedRow(w, ps, lags, t + lags, out.rows[t])
  {
  }

  /** One cell of the feature matrix. */
  lemma FeatureCell(out: Wide, t: nat, m: nat)
    requires Shaped(out) && forall t :: 0 <= t < |out.rows| ==> Complete(out.rows[t])
    requires t < |out.rows| && m < |LagFeatureCols(out.names)|
    ensures Some(FeatureMatrix(out)[t][m]) == out.rows[t].vals[LagFeatureCols(out.names)[m]]
  {
  }

  /** The lag column of ps[m] in a shifted row. */
  lemma LagValue(w: Wide, ps: seq<(string, nat)>, lags: nat, u: nat, row: WRow, m: nat)
    requires Shaped(w) && Over(w, ps) && lags <= u < |w.rows|
    requires forall p :: 0 <= p < |ps| ==> ps[p].1 <= lags
    requires ShiftedRow(w, ps, lags, u, row) && m < |ps|
    ensures row.vals[|w.names| + m] == ColumnOf(w, ps[m].0)[u - ps[m].1]
  {
    var j := |w.names| + m;
    assert j - |w.names| == m;
  }

  // ----- run_multivariate_forecasting -----

  /** `metrics_summary` after the loop has seen the given targets. Each turn
      lags a fresh copy of the same merged frame, so every turn sees the
      same outcome `lagged`; the first error ends the run. */
  function RunTargets(lagged: Outcome<Wide>, targets: seq<string>, model: XgboostUnivariate.Regressor,
                      sqrt: real -> real, round: (real, int) -> real): (r: Outcome<seq<MultiRow>>)
    requires lagged.Ok? ==> Shaped(lagged.value) && forall t :: 0 <= t < |lagged.value.rows| ==> Complete(lagged.value.rows[t])
  {
    if targets == [] then Ok([])
    else
      var n := |targets|;
      match RunTargets(lagged, targets[..n - 1], model, sqrt, round)
      case Err(m) => Err(m)
      case Ok(rows) =>
        match lagged
        case Err(m) => Err(m)
        case Ok(out) =>
          match ForecastTarget(out, targets[n - 1], model, sqrt, round)
          case Err(m) => Err(m)
          case Ok(row) => Ok(rows + [row])
  }

  /** Once the loop has failed the run stays failed with the same error. */
  lemma {:induction false} RunTargetsStaysErr(lagged: Outcome<Wide>, targets: seq<string>, i: nat, model: XgboostUnivariate.Regressor,
                                              sqrt: real -> real, round: (real, int) -> real)
    requires lagged.Ok? ==> Shaped(lagged.value) && forall t :: 0 <= t < |lagged.value.rows| ==> Complete(lagged.value.rows[t])
    requires i <= |targets| && RunTargets(lagged, targets[..i], model, sqrt, round).Err?
    ensures RunTargets(lagged, targets, model, sqrt, round) == RunTargets(lagged, targets[..i], model, sqrt, round)
    decreases |targets| - i
  {
    if i < |targets| {
      assert targets[..i + 1][..i] == targets[..i];
      RunTargetsStaysErr(lagged, targets, i + 1, model, sqrt, round);
    } else {
      assert targets[..i] == targets;
    }
  }

  /** A successful run has one row per target, in order, keyed by it, and
      each row is that target's forecast on the lagged table. */
  lemma {:induction false} RunTargetsRows(lagged: Outcome<Wide>, targets: seq<string>, model: XgboostUnivariate.Regressor,
                                          sqrt: real -> real, round: (real, int) -> real)
    requires lagged.Ok? ==> Shaped(lagged.value) && forall t :: 0 <= t < |lagged.value.rows| ==> Complete(lagged.value.rows[t])
    requires RunTargets(lagged, targets, model, sqrt, round).Ok?
    ensures var rows := RunTargets(lagged, targets, model, sqrt, round).value;
      |rows| == |targets| &&
      forall i :: 0 <= i < |rows| ==> (rows[i].pollutant == targets[i] &&
        lagged.Ok? && ForecastTarget(lagged.value, targets[i], model, sqrt, round) == Ok(rows[i]))
  {
    if targets != [] {
      var n := |targets|;
      var front := targets[..n - 1];
      var prev := RunTargets(lagged, front, model, sqrt, round);
      assert prev.Ok? && lagged.Ok?;
      RunTargetsRows(lagged, front, model, sqrt, round);
      var row := ForecastTarget(lagged.value, targets[n - 1], model, sqrt, round);
      var rows := RunTargets(lagged, targets, model, sqrt, round).value;
      assert rows == prev.value + [row.value];
      forall i | 0 <= i < n
        ensures rows[i].pollutant == targets[i] &&
          ForecastTarget(lagged.value, targets[i], model, sqrt, round) == Ok(rows[i])
      {
        if i < n - 1 {
          assert rows[i] == prev.value[i] && targets[i] == front[i];
        }
      }
    }
  }

  /** The whole script. */
  function Run(files: string -> Option<seq<Reading>>, parse: string -> Option<Calendar.Day>,
               model: XgboostUnivariate.Regressor, sqrt: real -> real, round: (real, int) -> real): Outcome<seq<MultiRow>>
  {
    match Loaded(PollutantCodes, files, parse)
    case Err(m) => Err(m)
    case Ok(merged) => RunTargets(LagOutcome(LagSteps(merged, AllPollutants, Lags)), AllPollutants, model, sqrt, round)
  }

  /** The configured pollutant names are distinct, free of underscores and
      of "lag", and are the keys of the code table, in order. */
  lemma PollutantNames()
    ensures CodeNames(PollutantCodes) == AllPollutants
    ensures Unique(AllPollutants) && Plain(AllPollutants)
    ensures forall i :: 0 <= i < |AllPollutants| ==> !Contains(AllPollutants[i], "lag")
  {
    CodeNamesAll();
    PollutantsUnique();
    PollutantsNoLag();
  }

  lemma CodeNamesAll()
    ensures CodeNames(PollutantCodes) == AllPollutants
  {
  }

  lemma PollutantsUnique()
    ensures Unique(AllPollutants) && Plain(AllPollutants)
  {
    assert "CO"[0] == 'C' && "O3"[0] == 'O';
  }

  lemma PollutantsNoLag()
    ensures forall i :: 0 <= i < |AllPollutants| ==> !Contains(AllPollutants[i], "lag")
  {
    forall i | 0 <= i < |AllPollutants| ensures !Contains(AllPollutants[i], "lag") {
      NoLag(AllPollutants[i]);
    }
  }

  /** A failed lagging step fails the first turn, so the whole loop. */
  lemma RunTargetsErr(lagged: Outcome<Wide>, targets: seq<string>, model: XgboostUnivariate.Regressor,
                      sqrt: real -> real, round: (real, int) -> real)
    requires lagged.Err? && targets != []
    ensures RunTargets(lagged, targets, model, sqrt, round) == Err(lagged.msg)
  {
    assert targets[..1][..0] == [];
    RunTargetsStaysErr(lagged, targets, 1, model, sqrt, round);
  }

  /** A configured pollutant absent from the loaded table is one whose file
      is missing. */
  lemma AbsentNotFound(files: string -> Option<seq<Reading>>, parse: string -> Option<Calendar.Day>, k: nat)
    requires Loaded(PollutantCodes, files, parse).Ok? && k < |AllPollutants|
    ensures AllPollutants[k] !in Loaded(PollutantCodes, files, parse).value.names <==> !Found(PollutantCodes[k], files)
  {
    PollutantNames();
    LoadedNames(PollutantCodes, files, parse);
    assert CodeNames(PollutantCodes)[k] == PollutantCodes[k].0;
    FoundNamesIn(PollutantCodes, files, k);
  }

  /** When a pollutant's file is missing but another's exists, loading
      succeeds without its column and the first forecast raises `KeyError`
      for the first pollutant without a file. */
  lemma RunMissingFile(files: string -> Option<seq<Reading>>, parse: string -> Option<Calendar.Day>,
                       model: XgboostUnivariate.Regressor, sqrt: real -> real, round: (real, int) -> real)
    requires Loaded(PollutantCodes, files, parse).Ok?
    requires exists i :: 0 <= i < |PollutantCodes| && !Found(PollutantCodes[i], files)
    ensures var r := Run(files, parse, model, sqrt, round);
      r.Err? && exists i :: (0 <= i < |AllPollutants| && !Found(PollutantCodes[i], files) &&
                              r.msg == "KeyError: '" + AllPollutants[i] + "'")
  {
    PollutantNames();
    var merged := Loaded(PollutantCodes, files, parse).value;
    var s := LagSteps(merged, AllPollutants, Lags);
    LagStepsMissing(merged, AllPollutants, Lags);
    var i :| 0 <= i < |PollutantCodes| && !Found(PollutantCodes[i], files);
    AbsentNotFound(files, parse, i);
    var k :| 0 <= k < |AllPollutants| && s.missing.value == AllPollutants[k] && AllPollutants[k] !in merged.names;
    AbsentNotFound(files, parse, k);
    RunTargetsErr(LagOutcome(s), AllPollutants, model, sqrt, round);
  }

  /** When every file exists and loading succeeds, the merged table has
      one column per pollutant, lagging succeeds, and for every target the
      samples' features are only the six pollutants' values one to three
      days before the target day. */
  lemma RunAllFound(files: string -> Option<seq<Reading>>, parse: string -> Option<Calendar.Day>)
    requires Loaded(PollutantCodes, files, parse).Ok?
    requires forall i :: 0 <= i < |PollutantCodes| ==> Found(PollutantCodes[i], files)
    ensures var merged := Loaded(PollutantCodes, files, parse).value;
      var lagged := LagOutcome(LagSteps(merged, AllPollutants, Lags));
      merged.names == AllPollutants && lagged.Ok? &&
      forall i :: 0 <= i < |AllPollutants| ==>
        SamplesArePast(merged, LagPairs(AllPollutants, Lags), Lags, AllPollutants[i], lagged.value)
  {
    PollutantNames();
    AllFoundNames(files, parse);
    var merged := Loaded(PollutantCodes, files, parse).value;
    assert forall i :: 0 <= i < |AllPollutants| ==> AllPollutants[i] in merged.names;
    LaggedSamples(merged, AllPollutants, Lags);
  }

  /** With every file present the loaded table has one column per pollutant. */
  lemma AllFoundNames(files: string -> Option<seq<Reading>>, parse: string -> Option<Calendar.Day>)
    requires Loaded(PollutantCodes, files, parse).Ok?
    requires forall i :: 0 <= i < |PollutantCodes| ==> Found(PollutantCodes[i], files)
    ensures Loaded(PollutantCodes, files, parse).value.names == AllPollutants
  {
    PollutantNames();
    LoadedNames(PollutantCodes, files, parse);
    FoundNamesAll(PollutantCodes, files);
  }

  /** The samples of every target column, on one lagged table. */
  lemma LaggedSamples(w: Wide, cols: seq<string>, lags: nat)
    requires Shaped(w) && Plain(w.names) && 1 <= lags < 10 && Unique(cols) && cols != []
    requires forall i :: 0 <= i < |cols| ==> cols[i] in w.names
    requires forall i :: 0 <= i < |w.names| ==> !Contains(w.names[i], "lag")
    requires forall t :: 0 <= t < |w.rows| ==> Complete(w.rows[t])
    ensures var lagged := LagOutcome(LagSteps(w, cols, lags));
      lagged.Ok? && forall i :: 0 <= i < |cols| ==> SamplesArePast(w, LagPairs(cols, lags), lags, cols[i], lagged.value)
  {
    LagFeatures(w, cols, lags);
    forall i | 0 <= i < |cols|
      ensures SamplesArePast(w, LagPairs(cols, lags), lags, cols[i], LagOutcome(LagSteps(w, cols, lags)).value)
    {
      FeaturesArePast(w, cols, lags, cols[i]);
    }
  }

  /** A successful run has one metrics row per pollutant, in order, each the
      forecast of that pollutant on the lagged table. */
  lemma RunRows(files: string -> Option<seq<Reading>>, parse: string -> Option<Calendar.Day>,
                model: XgboostUnivariate.Regressor, sqrt: real -> real, round: (real, int) -> real)
    requires Run(files, parse, model, sqrt, round).Ok?
    ensures var merged := Loaded(PollutantCodes, files, parse);
      merged.Ok? && var lagged := LagOutcome(LagSteps(merged.value, AllPollutants, Lags));
      var rows := Run(files, parse, model, sqrt, round).value;
      lagged.Ok? && |rows| == |AllPollutants| &&
      forall i :: 0 <= i < |AllPollutants| ==>
        rows[i].pollutant == AllPollutants[i] && Ok(rows[i]) == ForecastTarget(lagged.value, AllPollutants[i], model, sqrt, round)
  {
    var merged := Loaded(PollutantCodes, files, parse).value;
    var lagged := LagOutcome(LagSteps(merged, AllPollutants, Lags));
    RunTargetsRows(lagged, AllPollutants, model, sqrt, round);
  }

  /** `run_multivariate_forecasting`: load once, then for every pollutant
      copy the merged frame, lag the copy, and forecast; the merged frame is
      never written. */
  method RunMultivariateForecasting(files: string -> Option<seq<Reading>>, parse: string -> Option<Calendar.Day>,
                                    model: XgboostUnivariate.Regressor, sqrt: real -> real, round: (real, int) -> real)
    returns (r: Outcome<seq<MultiRow>>)
    ensures r == Run(files, parse, model, sqrt, round)
  {
    var loaded := LoadAndMerge(PollutantCodes, files, parse);
    if loaded.Err? {
      return Err(loaded.msg);
    }
    r := ForecastEach(loaded.value, AllPollutants, Lags, AllPollutants, model, sqrt, round);
  }

  /** The loop of `run_multivariate_forecasting`, for any lagged columns
      and targets: each turn copies the merged frame, lags the copy and
      forecasts the target; the merged frame is never written. */
  method ForecastEach(merged: Wide, cols: seq<string>, lags: nat, targets: seq<string>,
                      model: XgboostUnivariate.Regressor, sqrt: real -> real, round: (real, int) -> real)
    returns (r: Outcome<seq<MultiRow>>)
    requires Shaped(merged)
    ensures r == RunTargets(LagOutcome(LagSteps(merged, cols, lags)), targets, model, sqrt, round)
  {
    var mergedFrame := new LagFrame(merged);
    ghost var lagged := LagOutcome(LagSteps(merged, cols, lags));
    var summary: seq<MultiRow> := [];
    for i := 0 to |targets|
      invariant mergedFrame.table == merged
      invariant RunTargets(lagged, targets[..i], model, sqrt, round) == Ok(summary)
    {
      assert targets[..i + 1][..i] == targets[..i];
      var target := targets[i];
      var df := new LagFrame(mergedFrame.table);
      var out := df.CreateLagFeatures(cols, lags);
      if out.Err? {
        RunTargetsStaysErr(lagged, targets, i + 1, model, sqrt, round);
        return Err(out.msg);
      }
      var row := ForecastTarget(out.value, target, model, sqrt, round);
      if row.Err? {
        RunTargetsStaysErr(lagged, targets, i + 1, model, sqrt, round);
        return Err(row.msg);
      }
      summary := summary + [row.value];
    }
    assert targets[..|targets|] == targets;
    r := Ok(summary);
  }
}
