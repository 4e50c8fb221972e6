/** `data_exploration.py`: each EPA file is reduced to the monthly mean of
    its daily concentrations, and the run collects the pollutants whose file
    gave any month, keyed by pollutant name. Plots, the correlation heatmap
    and the printed previews are not part of this model; reading a file is
    the `read` parameter. */
module DataExploration {
  import opened Wrappers
  import opened Stats
  import opened Calendar
  import opened Aggregate
  import opened Frames
  import opened Columns
  import opened Grouping
  import opened PySeq

  /** `PARAMETER_CODE_TO_NAME`. */
  const CodeToName: map<string, string> :=
    map["42101" := "CO", "42401" := "SO2", "42602" := "NO2",
        "44201" := "O3", "81102" := "PM10", "88101" := "PM2.5"]

  /** What `load_and_process_file` hands back: the monthly frame, the
      (None, None) of a file without the needed columns, or (None, message)
      after an exception. */
  datatype Loaded = Monthly(months: seq<Obs>) | Skipped | Failed(msg: string)

  /** The month bin (`resample('M')`) of a timestamp cell. */
  function MonthOf(c: Cell): (k: Option<int>)
    ensures k.Some? <==> c.Date?
  {
    if c.Date? then Some(MonthKey(c.day)) else None
  }

  /** A concentration above the -999 sentinel. */
  predicate AboveSentinel(c: Cell) {
    c.Num? && c.x > -999.0
  }

  /** The two columns selected, renamed to (Date, Concentration), with the
      dates parsed leniently. */
  function Prepared(df: Table, parse: string -> Option<int>): (t: Table)
    requires "date_local" in df.cols && "arithmetic_mean" in df.cols
    ensures WellFormed(t) && t.cols == ["Date", "Concentration"] && |t.rows| == |df.rows|
  {
    var sel := Select(df, ["date_local", "arithmetic_mean"]).value;
    MapColumn(Table(["Date", "Concentration"], sel.rows), "Date", DateCoerce(parse))
  }

  /** `dropna()`: rows with a missing date or concentration go. */
  function DropIncomplete(t: Table): Table {
    DropMissing(DropMissing(t, "Date"), "Concentration")
  }

  /** A remaining concentration that is not a number cannot be compared
      with -999. */
  predicate Uncomparable(t: Table) {
    exists i :: 0 <= i < |t.rows| && !Get(t, i, "Concentration").Num?
  }

  /** `df[df['Concentration'] > -999]`. */
  function Valid(t: Table): Table {
    Where(t, "Concentration", AboveSentinel)
  }

  /** `set_index('Date').resample('M').mean()`. */
  function MonthlyMeans(t: Table): seq<Obs> {
    Resample(Observations(t.cols, t.rows, "Date", MonthOf, "Concentration"))
  }

  /** `load_and_process_file` on the outcome of reading the file. */
  function LoadAndProcess(read: Outcome<Table>, parse: string -> Option<int>): Loaded {
    match read
    case Err(m) => Failed(m)
    case Ok(df) =>
      if "date_local" !in df.cols || "arithmetic_mean" !in df.cols then Skipped
      else
        var present := DropIncomplete(Prepared(df, parse));
        if Uncomparable(present) then Failed("'>' not supported between instances of 'str' and 'int'")
        else Monthly(MonthlyMeans(Valid(present)))
  }

  /** A file is skipped exactly when it was read but lacks one of the two
      columns; a read error comes back as the error. */
  lemma LoadOutcomes(read: Outcome<Table>, parse: string -> Option<int>)
    ensures LoadAndProcess(read, parse).Skipped? <==>
      read.Ok? && ("date_local" !in read.value.cols || "arithmetic_mean" !in read.value.cols)
    ensures read.Err? ==> LoadAndProcess(read, parse) == Failed(read.msg)
  {
  }

  /** A row that survives cleaning: built from a record of the file, its
      date parsed, its concentration a number above the sentinel. */
  predicate Kept(df: Table, parse: string -> Option<int>, row: seq<Cell>) {
    exists i :: 0 <= i < |df.rows| &&
      row == [ToDate(Get(df, i, "date_local"), parse), Get(df, i, "arithmetic_mean")] &&
      row[0].Date? && AboveSentinel(row[1])
  }

  /** Row i of the prepared table is record i's parsed date and value. */
  lemma PreparedRow(df: Table, parse: string -> Option<int>, i: nat)
    requires WellFormed(df) && "date_local" in df.cols && "arithmetic_mean" in df.cols && i < |df.rows|
    ensures Prepared(df, parse).rows[i] == [ToDate(Get(df, i, "date_local"), parse), Get(df, i, "arithmetic_mean")]
  {
    var names := ["date_local", "arithmetic_mean"];
    var sel := Select(df, names).value;
    var named := Table(["Date", "Concentration"], sel.rows);
    var t := Prepared(df, parse);
    SelectValues(df, names, i, "date_local");
    SelectValues(df, names, i, "arithmetic_mean");
    assert Find(sel.cols, "date_local") == 0 && Find(sel.cols, "arithmetic_mean") == 1;
    assert Find(named.cols, "Date") == 0 && Find(named.cols, "Concentration") == 1;
    assert Get(named, i, "Date") == Get(df, i, "date_local");
    assert Get(named, i, "Concentration") == Get(df, i, "arithmetic_mean");
    var cells := KeyCol(named, "Date");
    PutKeepsOthers(named, "Date", seq(|cells|, j requires 0 <= j < |cells| => DateCoerce(parse)(cells[j])), i, "Concentration");
    assert Get(t, i, "Date") == ToDate(Get(df, i, "date_local"), parse);
    assert Get(t, i, "Concentration") == Get(df, i, "arithmetic_mean");
    assert |t.rows[i]| == 2;
  }

  /** A cleaned row is a kept record. */
  lemma CleanedRowKept(df: Table, parse: string -> Option<int>, row: seq<Cell>)
    requires WellFormed(df) && "date_local" in df.cols && "arithmetic_mean" in df.cols
    requires row in Valid(DropIncomplete(Prepared(df, parse))).rows
    ensures Kept(df, parse, row)
  {
    var t := Prepared(df, parse);
    var d := DropMissing(t, "Date");
    var p := DropIncomplete(t);
    WhereRows(t, "Date", Filled);
    WhereRows(d, "Concentration", Filled);
    WhereRows(p, "Concentration", AboveSentinel);
    var i :| 0 <= i < |t.rows| && t.rows[i] == row;
    PreparedRow(df, parse, i);
    assert Lookup(t.cols, row, "Date") == row[0];
  }

  /** A kept record survives cleaning. */
  lemma KeptRowCleaned(df: Table, parse: string -> Option<int>, row: seq<Cell>)
    requires WellFormed(df) && "date_local" in df.cols && "arithmetic_mean" in df.cols
    requires Kept(df, parse, row)
    ensures row in Valid(DropIncomplete(Prepared(df, parse))).rows
  {
    var t := Prepared(df, parse);
    var i: nat :| i < |df.rows| &&
      row == [ToDate(Get(df, i, "date_local"), parse), Get(df, i, "arithmetic_mean")] &&
      row[0].Date? && AboveSentinel(row[1]);
    PreparedRow(df, parse, i);
    assert row == t.rows[i];
    assert Lookup(t.cols, row, "Date") == row[0] && Lookup(t.cols, row, "Concentration") == row[1];
    var d := DropMissing(t, "Date");
    WhereRows(t, "Date", Filled);
    assert row in d.rows;
    var p := DropMissing(d, "Concentration");
    WhereRows(d, "Concentration", Filled);
    assert row in p.rows;
    WhereRows(p, "Concentration", AboveSentinel);
  }

  /** The cleaned rows are exactly the records with a parsed date and a
      concentration above -999, as (date, value) pairs. */
  lemma CleanedRows(df: Table, parse: string -> Option<int>)
    requires WellFormed(df) && "date_local" in df.cols && "arithmetic_mean" in df.cols
    ensures var v := Valid(DropIncomplete(Prepared(df, parse)));
      v.cols == ["Date", "Concentration"] &&
      forall row: seq<Cell> :: row in v.rows <==> Kept(df, parse, row)
  {
    forall row: seq<Cell> ensures row in Valid(DropIncomplete(Prepared(df, parse))).rows <==> Kept(df, parse, row) {
      if row in Valid(DropIncomplete(Prepared(df, parse))).rows {
        CleanedRowKept(df, parse, row);
      }
      if Kept(df, parse, row) {
        KeptRowCleaned(df, parse, row);
      }
    }
  }

  /** The smallest key occurs among the keys. */
  lemma {:induction false} MinKeyOccurs(xs: seq<Obs>)
    requires |xs| > 0
    ensures MinKey(xs) in Keys(xs)
  {
    if |xs| > 1 {
      MinKeyOccurs(xs[1..]);
      assert Keys(xs[1..]) == Keys(xs)[1..];
    }
  }

  /** The largest key occurs among the keys. */
  lemma {:induction false} MaxKeyOccurs(xs: seq<Obs>)
    requires |xs| > 0
    ensures MaxKey(xs) in Keys(xs)
  {
    if |xs| > 1 {
      MaxKeyOccurs(xs[1..]);
      assert Keys(xs[1..]) == Keys(xs)[1..];
    }
  }

  /** The months a cleaned table's rows fall in. */
  predicate HasMonth(v: Table, k: int) {
    exists i :: 0 <= i < |v.rows| && MonthOf(Lookup(v.cols, v.rows[i], "Date")) == Some(k)
  }

  /** The monthly frame is empty exactly when no cleaned row is left. */
  lemma MonthlyEmpty(v: Table)
    requires forall row :: row in v.rows ==> Lookup(v.cols, row, "Date").Date?
    ensures MonthlyMeans(v) == [] <==> v.rows == []
  {
    var xs := Observations(v.cols, v.rows, "Date", MonthOf, "Concentration");
    if v.rows != [] {
      assert v.rows[0] in v.rows;
      ObservationKeys(v.cols, v.rows, "Date", MonthOf, "Concentration", MonthOf(Lookup(v.cols, v.rows[0], "Date")).value);
      assert xs != [];
    }
  }

  /** Each monthly value is the mean of the concentrations of the rows in
      that month (NaN for a month without any), and the months are
      consecutive. */
  lemma MonthlyValues(v: Table)
    ensures var m := MonthlyMeans(v);
      (forall i :: 0 <= i < |m| ==> m[i].key == m[0].key + i) &&
      (forall i :: 0 <= i < |m| ==> m[i].val == MeanSkipNa(GroupValues(v.cols, v.rows, "Date", MonthOf, "Concentration", m[i].key)))
  {
    var m := MonthlyMeans(v);
    forall i | 0 <= i < |m| ensures m[i].val == MeanSkipNa(GroupValues(v.cols, v.rows, "Date", MonthOf, "Concentration", m[i].key)) {
      ObservationValues(v.cols, v.rows, "Date", MonthOf, "Concentration", m[i].key);
    }
  }

  /** Every month some cleaned row falls in lies within the monthly frame's
      span. */
  lemma MonthlyCovers(v: Table, k: int)
    requires HasMonth(v, k)
    ensures var m := MonthlyMeans(v);
      m != [] && m[0].key <= k <= m[|m| - 1].key
  {
    var xs := Observations(v.cols, v.rows, "Date", MonthOf, "Concentration");
    ObservationKeys(v.cols, v.rows, "Date", MonthOf, "Concentration", k);
    var j :| 0 <= j < |xs| && Keys(xs)[j] == k;
    assert MinKey(xs) <= xs[j].key <= MaxKey(xs);
  }

  /** The monthly frame starts with a month that holds data. */
  lemma MonthlyFirst(v: Table)
    ensures var m := MonthlyMeans(v);
      m != [] ==> HasMonth(v, m[0].key)
  {
    var xs := Observations(v.cols, v.rows, "Date", MonthOf, "Concentration");
    if xs != [] {
      assert MonthlyMeans(v)[0].key == MinKey(xs);
      MinKeyOccurs(xs);
      ObservationKeys(v.cols, v.rows, "Date", MonthOf, "Concentration", MinKey(xs));
    }
  }

  /** The monthly frame ends with a month that holds data. */
  lemma MonthlyLast(v: Table)
    ensures var m := MonthlyMeans(v);
      m != [] ==> HasMonth(v, m[|m| - 1].key)
  {
    var xs := Observations(v.cols, v.rows, "Date", MonthOf, "Concentration");
    if xs != [] {
      var m := Resample(xs);
      var last := |m| - 1;
      assert last == MaxKey(xs) - MinKey(xs);
      assert m[last].key == MinKey(xs) + last;
      MaxKeyOccurs(xs);
      ObservationKeys(v.cols, v.rows, "Date", MonthOf, "Concentration", MaxKey(xs));
    }
  }

  /** A file that loads gives the monthly means of its cleaned rows, and a
      file whose rows all fail cleaning gives an empty frame. */
  lemma LoadedMonthly(df: Table, parse: string -> Option<int>)
    requires WellFormed(df) && LoadAndProcess(Ok(df), parse).Monthly?
    ensures "date_local" in df.cols && "arithmetic_mean" in df.cols
    ensures var v := Valid(DropIncomplete(Prepared(df, parse)));
      LoadAndProcess(Ok(df), parse).months == MonthlyMeans(v) &&
      (LoadAndProcess(Ok(df), parse).months == [] <==> !exists row :: Kept(df, parse, row))
  {
    var v := Valid(DropIncomplete(Prepared(df, parse)));
    CleanedRows(df, parse);
    forall row | row in v.rows ensures Lookup(v.cols, row, "Date").Date? {
      assert Kept(df, parse, row);
    }
    MonthlyEmpty(v);
    if exists row :: Kept(df, parse, row) {
      var row :| Kept(df, parse, row);
      assert row in v.rows;
    }
  }

  /** A concentration that is not a number, left after dropna, makes the
      comparison with -999 raise. */
  lemma TextConcentrationFails(df: Table, parse: string -> Option<int>)
    requires "date_local" in df.cols && "arithmetic_mean" in df.cols
    requires Uncomparable(DropIncomplete(Prepared(df, parse)))
    ensures LoadAndProcess(Ok(df), parse).Failed?
  {
  }

  // ----- run_exploration -----

  /** The pollutant a file name stands for: the code before the first
      underscore, translated when it is a known code and kept otherwise. */
  function PollutantName(filename: string): string {
    var code := BeforeFirst(filename, '_');
    if code in CodeToName then CodeToName[code] else code
  }

  /** The code of `<code>_<rest>` is the part before the underscore. */
  lemma {:induction false} BeforeFirstOfPrefix(code: string, rest: string)
    requires '_' !in code
    ensures BeforeFirst(code + "_" + rest, '_') == code
  {
    if code != [] {
      assert (code + "_" + rest)[1..] == code[1..] + "_" + rest;
      BeforeFirstOfPrefix(code[1..], rest);
    } else {
      assert code + "_" + rest == "_" + rest;
    }
  }

  /** A file named after a known code is labelled with the pollutant's
      name; any other code labels its file with the code itself. */
  lemma PollutantNameOf(code: string, rest: string)
    requires '_' !in code
    ensures code in CodeToName ==> PollutantName(code + "_" + rest) == CodeToName[code]
    ensures code !in CodeToName ==> PollutantName(code + "_" + rest) == code
  {
    BeforeFirstOfPrefix(code, rest);
  }

  /** A load that contributes to the dict: a frame with at least one month. */
  predicate Usable(l: Loaded) {
    l.Monthly? && l.months != []
  }

  /** `load_and_process_file` applied to each file by name. */
  function Loader(read: string -> Outcome<Table>, parse: string -> Option<int>): string -> Loaded {
    f => LoadAndProcess(read(f), parse)
  }

  /** The `monthly_dataframes` dict after the loop has seen the given files:
      a file that fails, is skipped or gives an empty frame leaves it
      alone; otherwise its frame is stored under its pollutant's name. */
  function Explored(files: seq<string>, load: string -> Loaded): seq<(string, seq<Obs>)>
  {
    if files == [] then []
    else
      var n := |files|;
      var d := Explored(files[..n - 1], load);
      var l := load(files[n - 1]);
      if Usable(l) then Assign(d, PollutantName(files[n - 1]), l.months) else d
  }

  /** A pollutant name and a frame its file gave. */
  predicate Contributes(files: seq<string>, load: string -> Loaded, k: string, m: seq<Obs>) {
    exists f :: f in files && PollutantName(f) == k && load(f) == Monthly(m) && m != []
  }

  /** Every entry of d is the frame of one of the files. */
  predicate FromFiles(d: seq<(string, seq<Obs>)>, files: seq<string>, load: string -> Loaded) {
    forall j :: 0 <= j < |d| ==> Contributes(files, load, d[j].0, d[j].1)
  }

  /** The dict's keys are distinct, as a dict's are. */
  lemma {:induction false} ExploredDistinct(files: seq<string>, load: string -> Loaded)
    ensures DistinctKeys(Explored(files, load))
  {
    if files != [] {
      var n := |files|;
      ExploredDistinct(files[..n - 1], load);
      var d0 := Explored(files[..n - 1], load);
      var l := load(files[n - 1]);
      if Usable(l) {
        var k := PollutantName(files[n - 1]);
        var d := Assign(d0, k, l.months);
        forall i, j | 0 <= i < j < |d| ensures d[i].0 != d[j].0 {
          if j == |d0| {
            assert d[j] == (k, l.months);
            assert d0[i].0 != k;
          }
        }
      }
    }
  }

  /** Every stored frame is the non-empty frame of one of the files, under
      that file's pollutant name. */
  lemma {:induction false} ExploredFromFiles(files: seq<string>, load: string -> Loaded)
    ensures FromFiles(Explored(files, load), files, load)
  {
    if files != [] {
      var n := |files|;
      var init := files[..n - 1];
      var last := files[n - 1];
      ExploredFromFiles(init, load);
      var d0 := Explored(init, load);
      var d := Explored(files, load);
      var l := load(last);
      assert last in files;
      forall j | 0 <= j < |d| ensures Contributes(files, load, d[j].0, d[j].1) {
        if j < |d0| && d[j] == d0[j] {
          assert Contributes(init, load, d0[j].0, d0[j].1);
          var f :| f in init && PollutantName(f) == d0[j].0 && load(f) == Monthly(d0[j].1) && d0[j].1 != [];
          assert f in files by { assert files[IndexOf(init, f)] == f; }
        } else {
          assert d[j] == (PollutantName(last), l.months);
        }
      }
    }
  }

  /** Where f occurs in s. */
  function IndexOf(s: seq<string>, f: string): (i: nat)
    requires f in s
    ensures i < |s| && s[i] == f
  {
    if s[0] == f then 0 else 1 + IndexOf(s[1..], f)
  }

  /** A dict key. */
  predicate HasKey<T>(d: seq<(string, T)>, k: string) {
    exists j :: 0 <= j < |d| && d[j].0 == k
  }

  /** Every file that gives a non-empty frame has its pollutant in the dict. */
  lemma {:induction false} ExploredCovers(files: seq<string>, load: string -> Loaded)
    ensures forall f :: f in files && Usable(load(f)) ==>
      HasKey(Explored(files, load), PollutantName(f))
  {
    if files != [] {
      var n := |files|;
      var init := files[..n - 1];
      var last := files[n - 1];
      ExploredCovers(init, load);
      var d0 := Explored(init, load);
      var d := Explored(files, load);
      forall f | f in files && Usable(load(f))
        ensures HasKey(d, PollutantName(f))
      {
        if f == last {
          if HasKey(d0, PollutantName(last)) {
            var j :| 0 <= j < |d0| && d0[j].0 == PollutantName(last);
            assert d[j].0 == PollutantName(f);
          } else {
            assert d[|d0|].0 == PollutantName(f);
          }
        } else {
          var i := IndexOf(files, f);
          assert f in init by { assert init[i] == f; }
          var j :| 0 <= j < |d0| && d0[j].0 == PollutantName(f);
          assert d[j].0 == PollutantName(f);
        }
      }
    }
  }

  /** `run_exploration`'s loop over the files (the heatmap over the
      collected frames is not modelled). */
  method RunExploration(files: seq<string>, read: string -> Outcome<Table>, parse: string -> Option<int>)
    returns (monthly: seq<(string, seq<Obs>)>)
    ensures monthly == Explored(files, Loader(read, parse))
  {
    monthly := [];
    for i := 0 to |files|
      invariant monthly == Explored(files[..i], Loader(read, parse))
    {
      var filename := files[i];
      var pollutant := PollutantName(filename);
      var loaded := LoadAndProcess(read(filename), parse);
      assert files[..i + 1][..i] == files[..i];
      if loaded.Failed? || loaded.Skipped? || loaded.months == [] {
        continue;
      }
      monthly := Assign(monthly, pollutant, loaded.months);
    }
    assert files[..|files|] == files;
  }
}
