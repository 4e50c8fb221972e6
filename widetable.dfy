/** A date-keyed table with one value column per pollutant, as the pollutant
    scripts build it: outer merges of per-pollutant daily means on the date,
    `sort_values` on the date, forward then backward filling, and `dropna`
    over whole rows. */
module WideTable {
  import opened Wrappers
  import opened Aggregate
  import Frames

  /** One row: the date key and one value per named column. */
  datatype WRow = WRow(key: int, vals: seq<Option<real>>)

  datatype Wide = Wide(names: seq<string>, rows: seq<WRow>)

  /** Every row has one value per column. */
  predicate Shaped(w: Wide) {
    forall t :: 0 <= t < |w.rows| ==> |w.rows[t].vals| == |w.names|
  }

  function RowKeys(rows: seq<WRow>): (ks: seq<int>)
    ensures |ks| == |rows| && forall t :: 0 <= t < |rows| ==> ks[t] == rows[t].key
  {
    seq(|rows|, t requires 0 <= t < |rows| => rows[t].key)
  }

  /** Shaped, with strictly ascending (so unique) dates. */
  predicate Keyed(w: Wide) {
    Shaped(w) && Increasing(RowKeys(w.rows))
  }

  /** Column j, top to bottom. */
  function Column(w: Wide, j: nat): (c: seq<Option<real>>)
    requires Shaped(w) && j < |w.names|
    ensures |c| == |w.rows| && forall t :: 0 <= t < |w.rows| ==> c[t] == w.rows[t].vals[j]
  {
    seq(|w.rows|, t requires 0 <= t < |w.rows| => w.rows[t].vals[j])
  }

  /** The values of the first row dated k; all missing when there is none. */
  function RowAt(rows: seq<WRow>, width: nat, k: int): (v: seq<Option<real>>)
    requires forall t :: 0 <= t < |rows| ==> |rows[t].vals| == width
    ensures |v| == width
    ensures k !in RowKeys(rows) ==> forall j :: 0 <= j < width ==> v[j].None?
  {
    if rows == [] then seq(width, j => None)
    else if rows[0].key == k then rows[0].vals
    else
      assert RowKeys(rows) == [rows[0].key] + RowKeys(rows[1..]);
      RowAt(rows[1..], width, k)
  }

  /** The row at position t of a table with unique dates is the row found
      under its date. */
  lemma {:induction false} RowAtPosition(rows: seq<WRow>, width: nat, t: nat)
    requires forall i :: 0 <= i < |rows| ==> |rows[i].vals| == width
    requires Increasing(RowKeys(rows)) && t < |rows|
    ensures RowAt(rows, width, rows[t].key) == rows[t].vals
  {
    if t > 0 {
      assert RowKeys(rows)[0] < RowKeys(rows)[t];
      assert Increasing(RowKeys(rows[1..])) by {
        assert forall i :: 0 <= i < |rows| - 1 ==> RowKeys(rows[1..])[i] == RowKeys(rows)[i + 1];
      }
      RowAtPosition(rows[1..], width, t - 1);
    }
  }

  /** The value of the first observation dated k; missing when there is none. */
  function SeriesAt(s: seq<Obs>, k: int): (v: Option<real>)
    ensures k !in Keys(s) ==> v.None?
  {
    if s == [] then None
    else if s[0].key == k then s[0].val
    else
      assert Keys(s) == [s[0].key] + Keys(s[1..]);
      SeriesAt(s[1..], k)
  }

  lemma {:induction false} SeriesAtPosition(s: seq<Obs>, i: nat)
    requires Ascending(s) && i < |s|
    ensures SeriesAt(s, s[i].key) == s[i].val
  {
    if i > 0 {
      SeriesAtPosition(s[1..], i - 1);
    }
  }

  /** A grouped series as a one-column table, the first table of a fold. */
  function FromSeries(name: string, s: seq<Obs>): (w: Wide)
    requires Ascending(s)
    ensures Keyed(w) && w.names == [name]
    ensures RowKeys(w.rows) == Keys(s)
    ensures forall t :: 0 <= t < |w.rows| ==> w.rows[t].vals == [s[t].val]
  {
    Wide([name], seq(|s|, t requires 0 <= t < |s| => WRow(s[t].key, [s[t].val])))
  }

  /** `pd.merge(w, s, on=date, how="outer")`: a row for every date of
      either side, in ascending date order, holding the table's values at
      that date and then the series' value at that date, each missing where
      its side has no such date. */
  function OuterMerge(w: Wide, name: string, s: seq<Obs>): (r: Wide)
    requires Shaped(w)
    ensures Keyed(r) && r.names == w.names + [name]
    ensures forall k :: k in RowKeys(r.rows) <==> k in RowKeys(w.rows) || k in Keys(s)
    ensures forall t :: 0 <= t < |r.rows| ==>
      r.rows[t].vals == RowAt(w.rows, |w.names|, r.rows[t].key) + [SeriesAt(s, r.rows[t].key)]
  {
    var ks := Distinct(RowKeys(w.rows) + Keys(s));
    var rows := seq(|ks|, t requires 0 <= t < |ks| =>
      WRow(ks[t], RowAt(w.rows, |w.names|, ks[t]) + [SeriesAt(s, ks[t])]));
    assert RowKeys(rows) == ks;
    Wide(w.names + [name], rows)
  }

  /** The merge keeps every value: on a date of the table, the old columns
      read as before; on a date of the series, the new column reads the
      series' value. */
  lemma MergeKeepsValues(w: Wide, name: string, s: seq<Obs>, k: int)
    requires Keyed(w) && Ascending(s)
    requires k in RowKeys(w.rows) || k in Keys(s)
    ensures var r := OuterMerge(w, name, s);
      RowAt(r.rows, |r.names|, k) == RowAt(w.rows, |w.names|, k) + [SeriesAt(s, k)]
  {
    var r := OuterMerge(w, name, s);
    var t :| 0 <= t < |r.rows| && RowKeys(r.rows)[t] == k;
    RowAtPosition(r.rows, |r.names|, t);
  }

  /** `sort_values` on the date (stable). */
  function SortRows(w: Wide): (r: Wide)
    ensures r.names == w.names
    ensures SortedBy(r.rows, (row: WRow) => row.key)
    ensures multiset(r.rows) == multiset(w.rows)
  {
    Wide(w.names, SortBy(w.rows, (row: WRow) => row.key))
  }

  /** A table whose dates are already ascending is left as it is by the
      sort: an outer merge sorts its keys itself. */
  lemma SortKeyedIsIdentity(w: Wide)
    requires Keyed(w)
    ensures SortRows(w) == w
  {
    SortAscendingIsIdentity(w.rows, (row: WRow) => row.key);
  }

  /** `fillna(method='ffill').fillna(method='bfill')` on every column. */
  function FillAll(w: Wide): (r: Wide)
    requires Shaped(w)
    ensures Shaped(r) && r.names == w.names && RowKeys(r.rows) == RowKeys(w.rows)
    ensures forall j :: 0 <= j < |w.names| ==> Column(r, j) == BFill(FFill(Column(w, j)))
  {
    var fills := seq(|w.names|, j requires 0 <= j < |w.names| => BFill(FFill(Column(w, j))));
    var r := Wide(w.names, seq(|w.rows|, t requires 0 <= t < |w.rows| =>
      WRow(w.rows[t].key, seq(|w.names|, j requires 0 <= j < |w.names| => fills[j][t]))));
    assert RowKeys(r.rows) == RowKeys(w.rows);
    r
  }

  /** A row with every value present. */
  predicate Complete(row: WRow) {
    forall j :: 0 <= j < |row.vals| ==> row.vals[j].Some?
  }

  /** `dropna()`: the rows with no missing value, in order. */
  function DropNaRows(rows: seq<WRow>): (r: seq<WRow>)
    ensures |r| <= |rows|
    ensures forall t :: 0 <= t < |r| ==> Complete(r[t]) && r[t] in rows
    ensures forall t :: 0 <= t < |rows| && Complete(rows[t]) ==> rows[t] in r
  {
    if rows == [] then []
    else
      var rest := DropNaRows(rows[1..]);
      assert forall t :: 1 <= t < |rows| ==> rows[t] == rows[1..][t - 1];
      if Complete(rows[0]) then [rows[0]] + rest else rest
  }

  /** `dropna()` keeps a table whose rows are all complete as it is. */
  lemma {:induction false} DropNaKeepsComplete(rows: seq<WRow>)
    requires forall t :: 0 <= t < |rows| ==> Complete(rows[t])
    ensures DropNaRows(rows) == rows
  {
    if rows != [] {
      DropNaKeepsComplete(rows[1..]);
    }
  }

  /** `dropna()` removes every row of a table with an incomplete row each. */
  lemma {:induction false} DropNaDropsAll(rows: seq<WRow>)
    requires forall t :: 0 <= t < |rows| ==> !Complete(rows[t])
    ensures DropNaRows(rows) == []
  {
    if rows != [] {
      DropNaDropsAll(rows[1..]);
    }
  }

  /** A column holding at least one value. */
  predicate HasValue(c: seq<Option<real>>) {
    exists t :: 0 <= t < |c| && c[t].Some?
  }

  /** After filling, when every column has a value, nothing is missing and
      `dropna` keeps every row. */
  lemma FilledKeepsAll(w: Wide)
    requires Shaped(w)
    requires forall j :: 0 <= j < |w.names| ==> HasValue(Column(w, j))
    ensures forall t :: 0 <= t < |w.rows| ==> Complete(FillAll(w).rows[t])
    ensures DropNaRows(FillAll(w).rows) == FillAll(w).rows
  {
    var r := FillAll(w);
    forall t | 0 <= t < |w.rows| ensures Complete(r.rows[t]) {
      forall j | 0 <= j < |w.names| ensures r.rows[t].vals[j].Some? {
        FillLeavesNoGap(Column(w, j));
        assert Column(r, j)[t] == r.rows[t].vals[j];
      }
    }
    DropNaKeepsComplete(r.rows);
  }

  /** After filling, a column with no value at all makes `dropna` remove
      every row. */
  lemma FilledDropsAll(w: Wide, j: nat)
    requires Shaped(w) && j < |w.names| && !HasValue(Column(w, j))
    ensures DropNaRows(FillAll(w).rows) == []
  {
    var r := FillAll(w);
    FillKeepsEmptyColumn(Column(w, j));
    forall t | 0 <= t < |r.rows| ensures !Complete(r.rows[t]) {
      assert Column(r, j)[t] == r.rows[t].vals[j];
    }
    DropNaDropsAll(r.rows);
  }

  /** A series holding at least one value. */
  predicate SomeValue(s: seq<Obs>) {
    exists i :: 0 <= i < |s| && s[i].val.Some?
  }

  /** The one column of a series table has a value exactly when the series
      has one. */
  lemma FromSeriesValue(name: string, s: seq<Obs>)
    requires Ascending(s)
    ensures HasValue(Column(FromSeries(name, s), 0)) <==> SomeValue(s)
  {
    var w := FromSeries(name, s);
    if SomeValue(s) {
      var i :| 0 <= i < |s| && s[i].val.Some?;
      assert Column(w, 0)[i] == s[i].val;
    }
  }

  /** The outer merge neither loses nor invents values: an old column has a
      value afterwards exactly when it had one before, and the new column
      has one exactly when the series has one. */
  lemma MergeColumnValue(w: Wide, name: string, s: seq<Obs>, j: nat)
    requires Keyed(w) && Ascending(s) && j <= |w.names|
    ensures var r := OuterMerge(w, name, s);
      HasValue(Column(r, j)) <==> if j < |w.names| then HasValue(Column(w, j)) else SomeValue(s)
  {
    if HasValue(Column(OuterMerge(w, name, s), j)) {
      MergedValueFrom(w, name, s, j);
    }
    if j < |w.names| && HasValue(Column(w, j)) {
      OldValueKept(w, name, s, j);
    }
    if j == |w.names| && SomeValue(s) {
      NewValueKept(w, name, s);
    }
  }

  /** A value in the merged column comes from the frame or the series. */
  lemma MergedValueFrom(w: Wide, name: string, s: seq<Obs>, j: nat)
    requires Keyed(w) && Ascending(s) && j <= |w.names|
    requires HasValue(Column(OuterMerge(w, name, s), j))
    ensures if j < |w.names| then HasValue(Column(w, j)) else SomeValue(s)
  {
    var r := OuterMerge(w, name, s);
    var width := |w.names|;
    var t :| 0 <= t < |r.rows| && Column(r, j)[t].Some?;
    var k := r.rows[t].key;
    if j < width {
      assert RowAt(w.rows, width, k)[j].Some?;
      assert k in RowKeys(w.rows);
      var u :| 0 <= u < |w.rows| && RowKeys(w.rows)[u] == k;
      RowAtPosition(w.rows, width, u);
      assert Column(w, j)[u].Some?;
    } else {
      assert SeriesAt(s, k).Some?;
      assert k in Keys(s);
      var u :| 0 <= u < |s| && Keys(s)[u] == k;
      SeriesAtPosition(s, u);
    }
  }

  /** A value of an old column survives the merge. */
  lemma OldValueKept(w: Wide, name: string, s: seq<Obs>, j: nat)
    requires Keyed(w) && Ascending(s) && j < |w.names| && HasValue(Column(w, j))
    ensures HasValue(Column(OuterMerge(w, name, s), j))
  {
    var r := OuterMerge(w, name, s);
    var width := |w.names|;
    var u :| 0 <= u < |w.rows| && Column(w, j)[u].Some?;
    var k := w.rows[u].key;
    assert k in RowKeys(w.rows);
    var t :| 0 <= t < |r.rows| && RowKeys(r.rows)[t] == k;
    RowAtPosition(w.rows, width, u);
    assert Column(r, j)[t].Some?;
  }

  /** A value of the series lands in the new column. */
  lemma NewValueKept(w: Wide, name: string, s: seq<Obs>)
    requires Keyed(w) && Ascending(s) && SomeValue(s)
    ensures HasValue(Column(OuterMerge(w, name, s), |w.names|))
  {
    var r := OuterMerge(w, name, s);
    var j := |w.names|;
    var u :| 0 <= u < |s| && s[u].val.Some?;
    var k := s[u].key;
    assert k in Keys(s);
    var t :| 0 <= t < |r.rows| && RowKeys(r.rows)[t] == k;
    SeriesAtPosition(s, u);
    assert Column(r, j)[t].Some?;
  }

  // ----- columns by name -----

  /** `df[c]`: the column named c. */
  function ColumnOf(w: Wide, c: string): (col: seq<Option<real>>)
    requires Shaped(w) && c in w.names
    ensures |col| == |w.rows|
    ensures forall t :: 0 <= t < |w.rows| ==> col[t] == w.rows[t].vals[Frames.Find(w.names, c)]
  {
    Column(w, Frames.Find(w.names, c))
  }

  /** `df[name] = col`: an existing column is overwritten where it stands,
      a new one goes last; the dates stay. */
  function Put(w: Wide, name: string, col: seq<Option<real>>): (r: Wide)
    requires Shaped(w) && |col| == |w.rows|
    ensures Shaped(r) && RowKeys(r.rows) == RowKeys(w.rows) && name in r.names
    ensures name in w.names ==> (r.names == w.names &&
      forall t :: 0 <= t < |w.rows| ==> r.rows[t].vals == w.rows[t].vals[Frames.Find(w.names, name) := col[t]])
    ensures name !in w.names ==> (r.names == w.names + [name] &&
      forall t :: 0 <= t < |w.rows| ==> r.rows[t].vals == w.rows[t].vals + [col[t]])
  {
    var rows := if name in w.names then
        var j := Frames.Find(w.names, name);
        seq(|w.rows|, t requires 0 <= t < |w.rows| => WRow(w.rows[t].key, w.rows[t].vals[j := col[t]]))
      else
        seq(|w.rows|, t requires 0 <= t < |w.rows| => WRow(w.rows[t].key, w.rows[t].vals + [col[t]]));
    assert RowKeys(rows) == RowKeys(w.rows);
    Wide(if name in w.names then w.names else w.names + [name], rows)
  }

  /** A name found among the first columns is found at the same place once
      more columns follow. */
  lemma FindPrefix(a: seq<string>, b: seq<string>, c: string)
    requires c in a
    ensures Frames.Find(a + b, c) == Frames.Find(a, c)
  {
    var k := Frames.Find(a, c);
    var k2 := Frames.Find(a + b, c);
    assert (a + b)[k] == c;
    if k2 < k {
      assert a[k2] == c;
    }
  }

  /** `dropna()` of rows whose first L are incomplete and the rest complete
      drops exactly those L. */
  lemma {:induction false} DropNaSplit(rows: seq<WRow>, L: nat)
    requires L <= |rows|
    requires forall t :: 0 <= t < L ==> !Complete(rows[t])
    requires forall t :: L <= t < |rows| ==> Complete(rows[t])
    ensures DropNaRows(rows) == rows[L..]
  {
    if L == 0 {
      DropNaKeepsComplete(rows);
    } else {
      DropNaSplit(rows[1..], L - 1);
      assert rows[1..][L - 1..] == rows[L..];
    }
  }

  /** Writing a column and reading it back gives the column written. */
  lemma PutThenRead(w: Wide, name: string, col: seq<Option<real>>)
    requires Shaped(w) && |col| == |w.rows|
    ensures ColumnOf(Put(w, name, col), name) == col
  {
    var r := Put(w, name, col);
    if name !in w.names {
      assert Frames.Find(r.names, name) == |w.names| by {
        assert r.names[|w.names|] == name;
        assert forall j :: 0 <= j < |w.names| ==> r.names[j] != name;
      }
    }
  }
}
