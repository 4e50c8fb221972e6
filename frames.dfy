/** The pandas DataFrame operations the metric-consolidation scripts use, on a
    table of cells: a header of column names and rows of cells aligned with
    it. Values are looked up by name at the first column carrying it. */
module Frames {
  import opened Wrappers

  /** A cell as it comes back from a CSV: missing (NaN or NaT), a number,
      text, or a timestamp once a column has been parsed as dates (the day
      number). */
  datatype Cell = Null | Num(x: real) | Text(s: string) | Date(day: int)

  datatype Table = Table(cols: seq<string>, rows: seq<seq<Cell>>)

  /** Every row has one cell per column. */
  predicate WellFormed(t: Table) {
    forall i :: 0 <= i < |t.rows| ==> |t.rows[i]| == |t.cols|
  }

  /** Position of the first column named c; |cols| when there is none. */
  function Find(cols: seq<string>, c: string): (k: nat)
    ensures k <= |cols|
    ensures k < |cols| ==> cols[k] == c
    ensures forall j :: 0 <= j < k ==> cols[j] != c
    ensures k == |cols| <==> c !in cols
  {
    if cols == [] then 0
    else if cols[0] == c then 0
    else 1 + Find(cols[1..], c)
  }

  /** `row[c]`: the cell under the column named c, missing when there is no
      such column (the missing value pandas aligns in). */
  function Lookup(cols: seq<string>, row: seq<Cell>, c: string): Cell {
    var k := Find(cols, c);
    if k < |cols| && k < |row| then row[k] else Null
  }

  function Get(t: Table, i: nat, c: string): Cell
    requires i < |t.rows|
  {
    Lookup(t.cols, t.rows[i], c)
  }

  /** The column names of b that a does not have, in b's order. */
  function NewCols(a: seq<string>, b: seq<string>): (r: seq<string>)
    ensures forall c :: c in r <==> c in b && c !in a
  {
    if b == [] then []
    else if b[0] in a then NewCols(a, b[1..])
    else [b[0]] + NewCols(a, b[1..])
  }

  /** The row re-laid out under the header cols, by name. */
  function Realign(from: seq<string>, row: seq<Cell>, cols: seq<string>): (r: seq<Cell>)
    ensures |r| == |cols|
    ensures forall k :: 0 <= k < |cols| ==> r[k] == Lookup(from, row, cols[k])
  {
    seq(|cols|, k requires 0 <= k < |cols| => Lookup(from, row, cols[k]))
  }

  function RealignAll(from: seq<string>, rows: seq<seq<Cell>>, cols: seq<string>): (r: seq<seq<Cell>>)
    ensures |r| == |rows|
    ensures forall i :: 0 <= i < |rows| ==> r[i] == Realign(from, rows[i], cols)
  {
    seq(|rows|, i requires 0 <= i < |rows| => Realign(from, rows[i], cols))
  }

  /** `pd.concat([a, b], ignore_index=True)`: the columns are a's followed by
      b's new ones; a's rows come first, then b's, each with missing cells
      under the columns it lacks. */
  function Concat(a: Table, b: Table): (r: Table)
    ensures WellFormed(r)
    ensures r.cols == a.cols + NewCols(a.cols, b.cols)
    ensures |r.rows| == |a.rows| + |b.rows|
  {
    var cols := a.cols + NewCols(a.cols, b.cols);
    Table(cols, RealignAll(a.cols, a.rows, cols) + RealignAll(b.cols, b.rows, cols))
  }

  lemma FindInPrefix(cols: seq<string>, extra: seq<string>, c: string)
    requires c in cols
    ensures Find(cols + extra, c) == Find(cols, c)
  {
    var k := Find(cols, c);
    var w := cols + extra;
    assert w[k] == c;
    assert forall j :: 0 <= j < k ==> w[j] != c;
    FindFirst(w, c, k);
  }

  /** Find returns the first position holding c. */
  lemma {:induction false} FindFirst(w: seq<string>, c: string, k: nat)
    requires k < |w| && w[k] == c && forall j :: 0 <= j < k ==> w[j] != c
    ensures Find(w, c) == k
  {
  }

  /** Realigning a row and reading it back by name gives the original cell,
      for every name of the new header. */
  lemma RealignLookup(from: seq<string>, row: seq<Cell>, cols: seq<string>, c: string)
    requires c in cols
    ensures Lookup(cols, Realign(from, row, cols), c) == Lookup(from, row, c)
  {
    var k := Find(cols, c);
    assert cols[k] == c;
  }

  /** Concatenation alters no row of a: under every name, a's rows read back
      a's values. */
  lemma ConcatLeftRows(a: Table, b: Table, i: nat, c: string)
    requires i < |a.rows|
    ensures Get(Concat(a, b), i, c) == Get(a, i, c)
  {
    var r := Concat(a, b);
    assert r.rows[i] == Realign(a.cols, a.rows[i], r.cols);
    if c in a.cols {
      RealignLookup(a.cols, a.rows[i], r.cols, c);
    } else if c in r.cols {
      var k := Find(r.cols, c);
      assert r.rows[i][k] == Lookup(a.cols, a.rows[i], r.cols[k]);
    }
  }

  /** Nor any row of b: b's rows come after a's and read back b's values
      under b's names, and missing values under the names only a has. */
  lemma ConcatRightRows(a: Table, b: Table, j: nat, c: string)
    requires j < |b.rows|
    ensures Get(Concat(a, b), |a.rows| + j, c) == Get(b, j, c)
  {
    var r := Concat(a, b);
    assert r.rows[|a.rows| + j] == Realign(b.cols, b.rows[j], r.cols);
    if c in r.cols {
      RealignLookup(b.cols, b.rows[j], r.cols, c);
    } else {
      assert c !in b.cols;
    }
  }

  /** Every name of either input is a column of the concatenation. */
  lemma ConcatCols(a: Table, b: Table)
    ensures forall c :: c in Concat(a, b).cols <==> c in a.cols || c in b.cols
  {
  }

  lemma {:induction false} NewColsNone(a: seq<string>, b: seq<string>)
    requires forall c :: c in b ==> c in a
    ensures NewCols(a, b) == []
  {
    if b != [] {
      NewColsNone(a, b[1..]);
    }
  }

  /** With the same header on both sides the header is kept and the rows are
      simply placed one after the other. */
  lemma ConcatSameHeader(a: Table, b: Table)
    requires WellFormed(a) && WellFormed(b) && a.cols == b.cols
    requires forall j, k :: 0 <= j < k < |a.cols| ==> a.cols[j] != a.cols[k]
    ensures Concat(a, b) == Table(a.cols, a.rows + b.rows)
  {
    var r := Concat(a, b);
    NewColsNone(a.cols, b.cols);
    assert r.cols == a.cols;
    forall i | 0 <= i < |a.rows| ensures RealignAll(a.cols, a.rows, a.cols)[i] == a.rows[i] {
      RealignSame(a.cols, a.rows[i]);
    }
    forall i | 0 <= i < |b.rows| ensures RealignAll(b.cols, b.rows, a.cols)[i] == b.rows[i] {
      RealignSame(a.cols, b.rows[i]);
    }
  }

  /** A row re-laid out under its own header of distinct names is unchanged. */
  lemma RealignSame(cols: seq<string>, row: seq<Cell>)
    requires |row| == |cols|
    requires forall j, k :: 0 <= j < k < |cols| ==> cols[j] != cols[k]
    ensures Realign(cols, row, cols) == row
  {
    forall k | 0 <= k < |cols| ensures Realign(cols, row, cols)[k] == row[k] {
      FindFirst(cols, cols[k], k);
    }
  }

  // ----- renaming, selecting, dropping and labelling columns -----

  /** `rename(columns=m)`: every column named in m gets its new name; the
      others and all cells stay as they are. */
  function RenameCols(cols: seq<string>, m: map<string, string>): (r: seq<string>)
    ensures |r| == |cols|
    ensures forall k :: 0 <= k < |cols| ==> r[k] == if cols[k] in m then m[cols[k]] else cols[k]
  {
    seq(|cols|, k requires 0 <= k < |cols| => if cols[k] in m then m[cols[k]] else cols[k])
  }

  function Rename(t: Table, m: map<string, string>): Table {
    Table(RenameCols(t.cols, m), t.rows)
  }

  /** After renaming src to dst (with src present and dst not yet taken), the
      values formerly under src read back under dst. */
  lemma RenameMoves(t: Table, src: string, dst: string, i: nat)
    requires i < |t.rows| && WellFormed(t)
    requires src in t.cols && dst !in t.cols
    ensures Get(Rename(t, map[src := dst]), i, dst) == Get(t, i, src)
  {
    var r := Rename(t, map[src := dst]);
    var k := Find(t.cols, src);
    assert r.cols[k] == dst;
    forall j | 0 <= j < k ensures r.cols[j] != dst {
      assert t.cols[j] != src && t.cols[j] != dst;
    }
    FindFirst(r.cols, dst, k);
  }

  /** `t[names]`: the columns listed, in that order; KeyError when one is absent. */
  function Select(t: Table, names: seq<string>): (r: Outcome<Table>)
    ensures r.Ok? <==> forall n :: n in names ==> n in t.cols
    ensures r.Ok? ==> r.value.cols == names && |r.value.rows| == |t.rows| && WellFormed(r.value)
  {
    if forall n :: n in names ==> n in t.cols then Ok(Table(names, RealignAll(t.cols, t.rows, names)))
    else Err("KeyError: not in index")
  }

  /** Selecting reads back the original values under the selected names. */
  lemma SelectValues(t: Table, names: seq<string>, i: nat, c: string)
    requires Select(t, names).Ok? && i < |t.rows| && c in names
    ensures Get(Select(t, names).value, i, c) == Get(t, i, c)
  {
    RealignLookup(t.cols, t.rows[i], names, c);
  }

  /** `drop(columns=names, errors='ignore')`: every column carrying one of
      the names is removed; the rest keep their order and cells. */
  function Keep(cols: seq<string>, names: set<string>): (ks: seq<nat>)
    ensures forall j :: 0 <= j < |ks| ==> ks[j] < |cols| && cols[ks[j]] !in names
    ensures forall k :: 0 <= k < |cols| && cols[k] !in names ==> k in ks
    ensures forall j, l :: 0 <= j < l < |ks| ==> ks[j] < ks[l]
  {
    var ks := KeepFrom(cols, names, 0);
    KeepFromFacts(cols, names, 0);
    assert forall k :: 0 <= k < |cols| && cols[k] !in names ==> k in ks;
    ks
  }

  /** Positions from i on whose column is not named in names, ascending. */
  function KeepFrom(cols: seq<string>, names: set<string>, i: nat): (ks: seq<nat>)
    decreases |cols| - i
  {
    if i >= |cols| then []
    else if cols[i] in names then KeepFrom(cols, names, i + 1)
    else [i] + KeepFrom(cols, names, i + 1)
  }

  /** The kept positions from i on are exactly the unnamed columns' positions,
      ascending. */
  lemma KeepFromFacts(cols: seq<string>, names: set<string>, i: nat)
    ensures var ks := KeepFrom(cols, names, i);
      (forall j :: 0 <= j < |ks| ==> i <= ks[j] < |cols| && cols[ks[j]] !in names) &&
      (forall k :: i <= k < |cols| && cols[k] !in names ==> k in ks) &&
      (forall j, l :: 0 <= j < l < |ks| ==> ks[j] < ks[l])
  {
    KeepFromRange(cols, names, i);
    KeepFromComplete(cols, names, i);
    KeepFromAscending(cols, names, i);
  }

  lemma {:induction false} KeepFromRange(cols: seq<string>, names: set<string>, i: nat)
    ensures forall j :: 0 <= j < |KeepFrom(cols, names, i)| ==>
      i <= KeepFrom(cols, names, i)[j] < |cols| && cols[KeepFrom(cols, names, i)[j]] !in names
    decreases |cols| - i
  {
    if i < |cols| {
      KeepFromRange(cols, names, i + 1);
      var rest := KeepFrom(cols, names, i + 1);
      if cols[i] !in names {
        var ks := [i] + rest;
        assert KeepFrom(cols, names, i) == ks;
        forall j | 0 <= j < |ks| ensures i <= ks[j] < |cols| && cols[ks[j]] !in names {
          if j > 0 { assert ks[j] == rest[j - 1]; }
        }
      }
    }
  }

  lemma {:induction false} KeepFromComplete(cols: seq<string>, names: set<string>, i: nat)
    ensures forall k :: i <= k < |cols| && cols[k] !in names ==> k in KeepFrom(cols, names, i)
    decreases |cols| - i
  {
    if i < |cols| {
      KeepFromComplete(cols, names, i + 1);
      var rest := KeepFrom(cols, names, i + 1);
      if cols[i] !in names {
        var ks := [i] + rest;
        assert KeepFrom(cols, names, i) == ks;
        forall k | i <= k < |cols| && cols[k] !in names ensures k in ks {
          if k > i { assert k in rest; }
        }
      }
    }
  }

  lemma {:induction false} KeepFromAscending(cols: seq<string>, names: set<string>, i: nat)
    ensures forall j, l :: 0 <= j < l < |KeepFrom(cols, names, i)| ==>
      KeepFrom(cols, names, i)[j] < KeepFrom(cols, names, i)[l]
    decreases |cols| - i
  {
    if i < |cols| {
      KeepFromAscending(cols, names, i + 1);
      KeepFromRange(cols, names, i + 1);
      var rest := KeepFrom(cols, names, i + 1);
      if cols[i] !in names {
        var ks := [i] + rest;
        assert KeepFrom(cols, names, i) == ks;
        forall j, l | 0 <= j < l < |ks| ensures ks[j] < ks[l] {
          assert ks[l] == rest[l - 1];
          if j > 0 { assert ks[j] == rest[j - 1]; }
        }
      }
    }
  }

  /** With no excluded name from i on, every position from i on is kept. */
  lemma {:induction false} KeepFromAll(cols: seq<string>, names: set<string>, i: nat)
    requires i <= |cols| && forall k :: i <= k < |cols| ==> cols[k] !in names
    ensures |KeepFrom(cols, names, i)| == |cols| - i
    ensures forall j :: 0 <= j < |cols| - i ==> KeepFrom(cols, names, i)[j] == i + j
    decreases |cols| - i
  {
    if i < |cols| {
      KeepFromAll(cols, names, i + 1);
      var tail := KeepFrom(cols, names, i + 1);
      assert cols[i] !in names;
      assert KeepFrom(cols, names, i) == [i] + tail;
      ConsRun(i, tail);
    }
  }

  /** i followed by the run i + 1, i + 2, ... is the run from i. */
  lemma ConsRun(i: nat, tail: seq<nat>)
    requires forall j :: 0 <= j < |tail| ==> tail[j] == i + 1 + j
    ensures forall j :: 0 <= j < |tail| + 1 ==> ([i] + tail)[j] == i + j
  {
    var ks := [i] + tail;
    forall j | 0 <= j < |tail| + 1 ensures ks[j] == i + j {
      if j > 0 {
        assert ks[j] == tail[j - 1];
      }
    }
  }

  function Pick<T>(s: seq<T>, ks: seq<nat>, d: T): (r: seq<T>)
    ensures |r| == |ks|
    ensures forall j :: 0 <= j < |ks| ==> r[j] == if ks[j] < |s| then s[ks[j]] else d
  {
    seq(|ks|, j requires 0 <= j < |ks| => if ks[j] < |s| then s[ks[j]] else d)
  }

  function Drop(t: Table, names: set<string>): (r: Table)
    ensures forall c :: c in r.cols <==> c in t.cols && c !in names
    ensures |r.rows| == |t.rows|
  {
    var ks := Keep(t.cols, names);
    KeptCols(t.cols, names);
    Table(Pick(t.cols, ks, ""), seq(|t.rows|, i requires 0 <= i < |t.rows| => Pick(t.rows[i], ks, Null)))
  }

  /** The kept headers are exactly those not named. */
  lemma KeptCols(cols: seq<string>, names: set<string>)
    ensures forall c :: c in Pick(cols, Keep(cols, names), "") <==> c in cols && c !in names
  {
    var ks := Keep(cols, names);
    var kept := Pick(cols, ks, "");
    forall c | c in cols && c !in names ensures c in kept {
      var k :| 0 <= k < |cols| && cols[k] == c;
      var j :| 0 <= j < |ks| && ks[j] == k;
      assert kept[j] == c;
    }
  }

  /** The names of cols not in names, in order. */
  function Without(cols: seq<string>, names: set<string>): seq<string>
  {
    if cols == [] then []
    else (if cols[0] in names then [] else [cols[0]]) + Without(cols[1..], names)
  }

  lemma {:induction false} PickKeepFrom(cols: seq<string>, names: set<string>, i: nat)
    requires i <= |cols|
    ensures Pick(cols, KeepFrom(cols, names, i), "") == Without(cols[i..], names)
    decreases |cols| - i
  {
    if i < |cols| {
      PickKeepFrom(cols, names, i + 1);
      var rest := KeepFrom(cols, names, i + 1);
      var tail := cols[i..];
      assert tail[0] == cols[i] && tail[1..] == cols[i + 1..];
      assert Without(tail, names) == (if cols[i] in names then [] else [cols[i]]) + Without(cols[i + 1..], names);
      if cols[i] !in names {
        assert KeepFrom(cols, names, i) == [i] + rest;
        PickCons(cols, i, rest, "");
      }
    }
  }

  /** Picking one more position in front. */
  lemma PickCons<T>(s: seq<T>, i: nat, ks: seq<nat>, d: T)
    requires i < |s|
    ensures Pick(s, [i] + ks, d) == [s[i]] + Pick(s, ks, d)
  {
    var a, b := Pick(s, [i] + ks, d), [s[i]] + Pick(s, ks, d);
    forall j | 0 <= j < |a| ensures a[j] == b[j] {
      if j > 0 {
        assert ([i] + ks)[j] == ks[j - 1];
      }
    }
  }

  /** The header after a drop is the old header without the dropped names,
      in the old order. */
  lemma DropHeader(t: Table, names: set<string>)
    ensures Drop(t, names).cols == Without(t.cols, names)
  {
    PickKeepFrom(t.cols, names, 0);
    assert t.cols[0..] == t.cols;
  }

  /** A drop keeps every row as wide as the header. */
  lemma DropWellFormed(t: Table, names: set<string>)
    ensures WellFormed(Drop(t, names))
  {
  }

  /** Without distributes over concatenation. */
  lemma {:induction false} WithoutConcat(a: seq<string>, b: seq<string>, names: set<string>)
    ensures Without(a + b, names) == Without(a, names) + Without(b, names)
  {
    if a == [] {
      assert a + b == b;
    } else {
      var h := if a[0] in names then [] else [a[0]];
      var ab := a + b;
      assert ab[0] == a[0] && ab[1..] == a[1..] + b;
      assert Without(ab, names) == h + Without(a[1..] + b, names);
      WithoutConcat(a[1..], b, names);
      var wa, wb := Without(a[1..], names), Without(b, names);
      assert h + (wa + wb) == (h + wa) + wb;
    }
  }

  /** A filter that drops none of the names keeps the header as it is. */
  lemma {:induction false} WithoutKept(cols: seq<string>, names: set<string>)
    requires forall k :: 0 <= k < |cols| ==> cols[k] !in names
    ensures Without(cols, names) == cols
  {
    if cols != [] {
      WithoutKept(cols[1..], names);
    }
  }

  /** A rename of names the header does not carry changes nothing. */
  lemma RenameAbsent(cols: seq<string>, m: map<string, string>)
    requires forall k :: 0 <= k < |cols| ==> cols[k] !in m
    ensures RenameCols(cols, m) == cols
  {
  }

  lemma RenameConcat(a: seq<string>, b: seq<string>, m: map<string, string>)
    ensures RenameCols(a + b, m) == RenameCols(a, m) + RenameCols(b, m)
  {
  }

  /** Merging on a key that is the only name the headers share: the left
      header as it is, then the right header without the key. */
  lemma MergeColsDisjoint(l: seq<string>, r: seq<string>, key: string, sl: string, sr: string)
    requires forall k :: 0 <= k < |l| && l[k] != key ==> l[k] !in r
    requires forall k :: 0 <= k < |r| && r[k] != key ==> r[k] !in l
    ensures MergeCols(l, r, key, sl, sr) == l + Without(r, {key})
  {
    var ks := RightKeep(r, key);
    assert LeftCols(l, r, key, sl) == l;
    assert RightCols(l, r, key, sr) == Pick(r, ks, "");
    PickKeepFrom(r, {key}, 0);
    assert r[0..] == r;
  }

  /** `t[name] = v`: the column takes the same value in every row; an
      existing column of that name is overwritten in place, otherwise the
      column is appended. */
  function SetConst(t: Table, name: string, v: Cell): (r: Table)
    requires WellFormed(t)
    ensures WellFormed(r)
    ensures |r.rows| == |t.rows|
    ensures forall i :: 0 <= i < |r.rows| ==> Get(r, i, name) == v
    ensures name in t.cols ==> r.cols == t.cols
    ensures name !in t.cols ==> r.cols == t.cols + [name]
  {
    var k := Find(t.cols, name);
    if k < |t.cols| then
      Table(t.cols, seq(|t.rows|, i requires 0 <= i < |t.rows| => t.rows[i][k := v]))
    else
      var r := Table(t.cols + [name], seq(|t.rows|, i requires 0 <= i < |t.rows| => t.rows[i] + [v]));
      assert forall i :: 0 <= i < |r.rows| ==> Get(r, i, name) == v by {
        forall i | 0 <= i < |r.rows| ensures Get(r, i, name) == v {
          FindFirst(r.cols, name, |t.cols|);
        }
      }
      r
  }

  /** Setting a column leaves every other column's values alone. */
  lemma SetConstKeepsOthers(t: Table, name: string, v: Cell, i: nat, c: string)
    requires WellFormed(t) && i < |t.rows| && c != name
    ensures Get(SetConst(t, name, v), i, c) == Get(t, i, c)
  {
    var r := SetConst(t, name, v);
    var k := Find(t.cols, c);
    if name !in t.cols && k < |t.cols| {
      FindInPrefix(t.cols, [name], c);
    } else if name !in t.cols {
      assert c !in r.cols;
    }
  }

  // ----- de-duplication -----

  /** The key cells of the rows, in order. */
  function KeyCol(t: Table, key: string): (ks: seq<Cell>)
    ensures |ks| == |t.rows|
    ensures forall i :: 0 <= i < |t.rows| ==> ks[i] == Get(t, i, key)
  {
    seq(|t.rows|, i requires 0 <= i < |t.rows| => Get(t, i, key))
  }

  /** The rows whose key was not seen in an earlier row (or in `seen`). */
  function FirstRows(cols: seq<string>, rows: seq<seq<Cell>>, key: string, seen: set<Cell>): (r: seq<seq<Cell>>)
    ensures |r| <= |rows|
    ensures forall j :: 0 <= j < |r| ==> r[j] in rows && Lookup(cols, r[j], key) !in seen
    decreases |rows|
  {
    if rows == [] then []
    else
      var k := Lookup(cols, rows[0], key);
      if k in seen then FirstRows(cols, rows[1..], key, seen)
      else [rows[0]] + FirstRows(cols, rows[1..], key, seen + {k})
  }

  /** `drop_duplicates(subset=[key])` with keep='first'. */
  function DedupFirst(t: Table, key: string): Table {
    Table(t.cols, FirstRows(t.cols, t.rows, key, {}))
  }

  predicate UniqueKeys(t: Table, key: string) {
    forall i, j :: 0 <= i < j < |t.rows| ==> Get(t, i, key) != Get(t, j, key)
  }

  lemma {:induction false} FirstRowsUnique(cols: seq<string>, rows: seq<seq<Cell>>, key: string, seen: set<Cell>)
    ensures forall i, j :: 0 <= i < j < |FirstRows(cols, rows, key, seen)| ==>
      Lookup(cols, FirstRows(cols, rows, key, seen)[i], key) != Lookup(cols, FirstRows(cols, rows, key, seen)[j], key)
    decreases |rows|
  {
    if rows != [] {
      var k := Lookup(cols, rows[0], key);
      if k in seen {
        FirstRowsUnique(cols, rows[1..], key, seen);
      } else {
        var rest := FirstRows(cols, rows[1..], key, seen + {k});
        FirstRowsUnique(cols, rows[1..], key, seen + {k});
        var r := FirstRows(cols, rows, key, seen);
        assert r == [rows[0]] + rest;
        forall i, j | 0 <= i < j < |r| ensures Lookup(cols, r[i], key) != Lookup(cols, r[j], key) {
          assert r[j] == rest[j - 1];
          if i > 0 {
            assert r[i] == rest[i - 1];
          }
        }
      }
    }
  }

  /** Every key of the input survives de-duplication. */
  lemma {:induction false} FirstRowsKeys(cols: seq<string>, rows: seq<seq<Cell>>, key: string, seen: set<Cell>, i: nat)
    requires i < |rows| && Lookup(cols, rows[i], key) !in seen
    ensures exists j :: (0 <= j < |FirstRows(cols, rows, key, seen)| &&
      Lookup(cols, FirstRows(cols, rows, key, seen)[j], key) == Lookup(cols, rows[i], key))
    decreases |rows|
  {
    var k := Lookup(cols, rows[0], key);
    var r := FirstRows(cols, rows, key, seen);
    if i > 0 {
      if k in seen {
        FirstRowsKeys(cols, rows[1..], key, seen, i - 1);
        assert rows[1..][i - 1] == rows[i];
      } else if Lookup(cols, rows[i], key) == k {
        assert r[0] == rows[0];
      } else {
        FirstRowsKeys(cols, rows[1..], key, seen + {k}, i - 1);
        assert rows[1..][i - 1] == rows[i];
        var j :| 0 <= j < |FirstRows(cols, rows[1..], key, seen + {k})| &&
          Lookup(cols, FirstRows(cols, rows[1..], key, seen + {k})[j], key) == Lookup(cols, rows[i], key);
        assert r[j + 1] == FirstRows(cols, rows[1..], key, seen + {k})[j];
      }
    } else {
      assert r[0] == rows[0];
    }
  }

  /** After `drop_duplicates` the key column is unique and holds exactly
      the keys it held before. */
  lemma DedupFirstUnique(t: Table, key: string)
    ensures UniqueKeys(DedupFirst(t, key), key)
    ensures KeySet(DedupFirst(t, key), key) == KeySet(t, key)
  {
    FirstRowsUnique(t.cols, t.rows, key, {});
    var d := DedupFirst(t, key);
    forall i, j | 0 <= i < j < |d.rows| ensures Get(d, i, key) != Get(d, j, key) {
      assert Get(d, i, key) == Lookup(t.cols, FirstRows(t.cols, t.rows, key, {})[i], key);
    }
    forall x | x in KeySet(t, key) ensures x in KeySet(d, key) {
      var i :| 0 <= i < |t.rows| && Get(t, i, key) == x;
      FirstRowsKeys(t.cols, t.rows, key, {}, i);
      var j :| 0 <= j < |d.rows| && Lookup(t.cols, d.rows[j], key) == Lookup(t.cols, t.rows[i], key);
      assert Get(d, j, key) == x;
    }
    forall x | x in KeySet(d, key) ensures x in KeySet(t, key) {
      var j :| 0 <= j < |d.rows| && Get(d, j, key) == x;
      assert d.rows[j] in t.rows;
      var i :| 0 <= i < |t.rows| && t.rows[i] == d.rows[j];
      assert Get(t, i, key) == x;
    }
  }

  lemma {:induction false} FirstRowsOfUnique(cols: seq<string>, rows: seq<seq<Cell>>, key: string, seen: set<Cell>)
    requires forall i, j :: 0 <= i < j < |rows| ==> Lookup(cols, rows[i], key) != Lookup(cols, rows[j], key)
    requires forall i :: 0 <= i < |rows| ==> Lookup(cols, rows[i], key) !in seen
    ensures FirstRows(cols, rows, key, seen) == rows
    decreases |rows|
  {
    if rows != [] {
      var k := Lookup(cols, rows[0], key);
      FirstRowsOfUnique(cols, rows[1..], key, seen + {k});
    }
  }

  lemma DedupFirstIdempotent(t: Table, key: string)
    ensures DedupFirst(DedupFirst(t, key), key) == DedupFirst(t, key)
  {
    var d := DedupFirst(t, key);
    FirstRowsUnique(t.cols, t.rows, key, {});
    FirstRowsOfUnique(d.cols, d.rows, key, {});
  }

  /** When a table holds older rows followed by newer ones, keep='first'
      keeps the older row for every key present among them. */
  lemma DedupKeepsOlder(older: seq<seq<Cell>>, newer: seq<seq<Cell>>, cols: seq<string>, key: string, i: nat)
    requires i < |older| && forall j :: 0 <= j < i ==> Lookup(cols, older[j], key) != Lookup(cols, older[i], key)
    ensures older[i] in FirstRows(cols, older + newer, key, {})
  {
    FirstRowsKeeps(cols, older + newer, key, {}, i);
  }

  lemma {:induction false} FirstRowsKeeps(cols: seq<string>, rows: seq<seq<Cell>>, key: string, seen: set<Cell>, i: nat)
    requires i < |rows| && Lookup(cols, rows[i], key) !in seen
    requires forall j :: 0 <= j < i ==> Lookup(cols, rows[j], key) != Lookup(cols, rows[i], key)
    ensures rows[i] in FirstRows(cols, rows, key, seen)
    decreases |rows|
  {
    if i > 0 {
      var k := Lookup(cols, rows[0], key);
      var s' := if k in seen then seen else seen + {k};
      assert rows[1..][i - 1] == rows[i];
      FirstRowsKeeps(cols, rows[1..], key, s', i - 1);
    }
  }

  // ----- merge -----

  /** The header of `pd.merge(l, r, on=key, suffixes=(sl, sr))`: l's columns,
      then r's except the key; a name both sides carry (other than the key)
      gets sl on the left and sr on the right. */
  function MergeCols(l: seq<string>, r: seq<string>, key: string, sl: string, sr: string): seq<string> {
    LeftCols(l, r, key, sl) + RightCols(l, r, key, sr)
  }

  function LeftCols(l: seq<string>, r: seq<string>, key: string, sl: string): (lc: seq<string>)
    ensures |lc| == |l|
  {
    seq(|l|, k requires 0 <= k < |l| => if l[k] != key && l[k] in r then l[k] + sl else l[k])
  }

  function RightCols(l: seq<string>, r: seq<string>, key: string, sr: string): (rc: seq<string>)
    ensures |rc| == |RightKeep(r, key)|
  {
    var ks := RightKeep(r, key);
    seq(|ks|, j requires 0 <= j < |ks| => if r[ks[j]] in l then r[ks[j]] + sr else r[ks[j]])
  }

  /** Positions of r's columns other than the key. */
  function RightKeep(r: seq<string>, key: string): (ks: seq<nat>)
    ensures forall j :: 0 <= j < |ks| ==> ks[j] < |r| && r[ks[j]] != key
  {
    Keep(r, {key})
  }

  /** The rows of the inner join: for each left row in order, each right row
      with the same key, in order. */
  function JoinRows(l: Table, r: Table, key: string): (rows: seq<seq<Cell>>)
    decreases |l.rows|
  {
    if l.rows == [] then []
    else
      var k := Get(l, 0, key);
      var ks := RightKeep(r.cols, key);
      MatchRows(l.rows[0], r, key, k, ks) + JoinRows(Table(l.cols, l.rows[1..]), r, key)
  }

  function MatchRows(left: seq<Cell>, r: Table, key: string, k: Cell, ks: seq<nat>): (rows: seq<seq<Cell>>)
    decreases |r.rows|
  {
    if r.rows == [] then []
    else
      var rest := MatchRows(left, Table(r.cols, r.rows[1..]), key, k, ks);
      if Get(r, 0, key) == k then [left + Pick(r.rows[0], ks, Null)] + rest else rest
  }

  /** `pd.merge(l, r, on=key, suffixes=...)`, an inner join; KeyError when
      either side lacks the key. */
  function Merge(l: Table, r: Table, key: string, sl: string, sr: string): (m: Outcome<Table>)
    ensures m.Ok? <==> key in l.cols && key in r.cols
  {
    if key !in l.cols || key !in r.cols then Err("KeyError: " + key)
    else Ok(Table(MergeCols(l.cols, r.cols, key, sl, sr), JoinRows(l, r, key)))
  }

  /** With the key on both sides the merge succeeds with the merged header. */
  lemma MergeOk(l: Table, r: Table, key: string, sl: string, sr: string)
    requires key in l.cols && key in r.cols
    ensures Merge(l, r, key, sl, sr) == Ok(Table(MergeCols(l.cols, r.cols, key, sl, sr), JoinRows(l, r, key)))
  {
  }

  /** The keys present in a table. */
  function KeySet(t: Table, key: string): set<Cell> {
    set i | 0 <= i < |t.rows| :: Get(t, i, key)
  }

  /** The rows whose key is among keys, in order. */
  function MatchedLeft(cols: seq<string>, rows: seq<seq<Cell>>, key: string, keys: set<Cell>): (m: seq<seq<Cell>>)
    ensures forall x :: x in m <==> x in rows && Lookup(cols, x, key) in keys
  {
    if rows == [] then []
    else if Lookup(cols, rows[0], key) in keys then [rows[0]] + MatchedLeft(cols, rows[1..], key, keys)
    else MatchedLeft(cols, rows[1..], key, keys)
  }

  lemma {:induction false} MatchRowsEmpty(left: seq<Cell>, r: Table, key: string, k: Cell, ks: seq<nat>)
    ensures MatchRows(left, r, key, k, ks) == [] <==> k !in KeySet(r, key)
    decreases |r.rows|
  {
    if r.rows != [] {
      var r' := Table(r.cols, r.rows[1..]);
      MatchRowsEmpty(left, r', key, k, ks);
      assert forall j :: 1 <= j < |r.rows| ==> Get(r, j, key) == Get(r', j - 1, key);
      if k in KeySet(r, key) && Get(r, 0, key) != k {
        var j :| 0 <= j < |r.rows| && Get(r, j, key) == k;
        assert Get(r', j - 1, key) == k;
      }
      if k in KeySet(r', key) {
        var j :| 0 <= j < |r'.rows| && Get(r', j, key) == k;
        assert Get(r, j + 1, key) == k;
      }
    } else {
      assert KeySet(r, key) == {};
    }
  }

  /** With unique keys on the right, each left row yields at most one row. */
  lemma {:induction false} MatchRowsAtMostOne(left: seq<Cell>, r: Table, key: string, k: Cell, ks: seq<nat>)
    requires UniqueKeys(r, key)
    ensures |MatchRows(left, r, key, k, ks)| <= 1
    decreases |r.rows|
  {
    if r.rows != [] {
      var r' := Table(r.cols, r.rows[1..]);
      assert forall j :: 0 <= j < |r'.rows| ==> Get(r', j, key) == Get(r, j + 1, key);
      MatchRowsAtMostOne(left, r', key, k, ks);
      if Get(r, 0, key) == k {
        forall j | 0 <= j < |r'.rows| ensures Get(r', j, key) != k {
          assert Get(r, 0, key) != Get(r, j + 1, key);
        }
        assert k !in KeySet(r', key);
        MatchRowsEmpty(left, r', key, k, ks);
      }
    }
  }

  /** Every joined row starts with the left row it came from. */
  lemma {:induction false} MatchRowsPrefix(left: seq<Cell>, r: Table, key: string, k: Cell, ks: seq<nat>)
    ensures forall m :: 0 <= m < |MatchRows(left, r, key, k, ks)| ==>
      |MatchRows(left, r, key, k, ks)[m]| >= |left| && MatchRows(left, r, key, k, ks)[m][..|left|] == left
    decreases |r.rows|
  {
    if r.rows != [] {
      MatchRowsPrefix(left, Table(r.cols, r.rows[1..]), key, k, ks);
    }
  }

  /** The inner join keeps exactly the left rows whose key the right side
      also has, in the left order: with unique keys on the right, joined row
      i extends the i-th such left row. */
  lemma {:induction false} JoinRowsLeft(l: Table, r: Table, key: string)
    requires UniqueKeys(r, key)
    ensures |JoinRows(l, r, key)| == |MatchedLeft(l.cols, l.rows, key, KeySet(r, key))|
    ensures forall i :: 0 <= i < |JoinRows(l, r, key)| ==>
      var left := MatchedLeft(l.cols, l.rows, key, KeySet(r, key))[i];
      |JoinRows(l, r, key)[i]| >= |left| && JoinRows(l, r, key)[i][..|left|] == left
    decreases |l.rows|
  {
    if l.rows != [] {
      var l' := Table(l.cols, l.rows[1..]);
      JoinRowsLeft(l', r, key);
      var k := Get(l, 0, key);
      var ks := RightKeep(r.cols, key);
      var mr := MatchRows(l.rows[0], r, key, k, ks);
      MatchRowsAtMostOne(l.rows[0], r, key, k, ks);
      MatchRowsEmpty(l.rows[0], r, key, k, ks);
      MatchRowsPrefix(l.rows[0], r, key, k, ks);
      var keys := KeySet(r, key);
      var ml := MatchedLeft(l.cols, l.rows, key, keys);
      var ml' := MatchedLeft(l.cols, l.rows[1..], key, keys);
      var j := JoinRows(l, r, key);
      var j' := JoinRows(l', r, key);
      assert j == mr + j';
      if k in keys {
        assert |mr| == 1;
        assert ml == [l.rows[0]] + ml';
        forall i | 0 <= i < |j| ensures |j[i]| >= |ml[i]| && j[i][..|ml[i]|] == ml[i] {
          if i > 0 {
            assert j[i] == j'[i - 1] && ml[i] == ml'[i - 1];
          }
        }
      } else {
        assert mr == [];
        assert ml == ml';
        assert j == j';
      }
    }
  }

  // ----- the key column through renames, drops and merges -----

  /** A de-duplicated table keeps rows of the original, so it stays well formed. */
  lemma DedupWellFormed(t: Table, key: string)
    requires WellFormed(t)
    ensures WellFormed(DedupFirst(t, key))
  {
    var d := DedupFirst(t, key);
    forall i | 0 <= i < |d.rows| ensures |d.rows[i]| == |d.cols| {
      var j :| 0 <= j < |t.rows| && t.rows[j] == d.rows[i];
    }
  }

  /** Two tables whose rows carry the same keys, row for row, have the same
      key set, and one has unique keys exactly when the other does. */
  lemma SameKeys(a: Table, b: Table, key: string)
    requires |a.rows| == |b.rows| && forall i :: 0 <= i < |a.rows| ==> Get(a, i, key) == Get(b, i, key)
    ensures KeySet(a, key) == KeySet(b, key)
    ensures UniqueKeys(a, key) <==> UniqueKeys(b, key)
  {
  }

  /** A rename that neither renames the key nor gives another column the
      key's name leaves every row's key where it was. */
  lemma RenameKeepsKey(t: Table, m: map<string, string>, key: string)
    requires key !in m && forall x :: x in m ==> m[x] != key
    ensures key in Rename(t, m).cols <==> key in t.cols
    ensures KeySet(Rename(t, m), key) == KeySet(t, key)
    ensures UniqueKeys(Rename(t, m), key) <==> UniqueKeys(t, key)
  {
    var rc := RenameCols(t.cols, m);
    if key in t.cols {
      FindFirst(rc, key, Find(t.cols, key));
    } else {
      assert forall k :: 0 <= k < |rc| ==> rc[k] != key;
    }
    SameKeys(Rename(t, m), t, key);
  }

  /** Dropping columns other than the key leaves every row's key where it was. */
  lemma DropKeepsKey(t: Table, names: set<string>, key: string)
    requires key !in names
    ensures key in Drop(t, names).cols <==> key in t.cols
    ensures KeySet(Drop(t, names), key) == KeySet(t, key)
    ensures UniqueKeys(Drop(t, names), key) <==> UniqueKeys(t, key)
  {
    DropKeyCells(t, names, key);
    SameKeys(Drop(t, names), t, key);
  }

  /** Reading the key from the kept cells of a row, when the key sits at
      kept position j. */
  lemma PickLookup(cols: seq<string>, row: seq<Cell>, ks: seq<nat>, key: string, j: nat)
    requires j < |ks| && ks[j] == Find(cols, key) < |cols| && Find(Pick(cols, ks, ""), key) == j
    ensures Lookup(Pick(cols, ks, ""), Pick(row, ks, Null), key) == Lookup(cols, row, key)
  {
  }

  lemma DropKeyCells(t: Table, names: set<string>, key: string)
    requires key !in names
    ensures forall i :: 0 <= i < |t.rows| ==> Get(Drop(t, names), i, key) == Get(t, i, key)
  {
    var d := Drop(t, names);
    var ks := Keep(t.cols, names);
    if key in t.cols {
      var j := DroppedFind(t, names, key);
      forall i | 0 <= i < |t.rows| ensures Get(d, i, key) == Get(t, i, key) {
        assert d.rows[i] == Pick(t.rows[i], ks, Null);
        PickLookup(t.cols, t.rows[i], ks, key, j);
      }
    } else {
      assert key !in d.cols;
    }
  }

  /** A kept column is found in the dropped table at its place among the
      kept positions. */
  lemma DroppedFind(t: Table, names: set<string>, key: string) returns (j: nat)
    requires key !in names && key in t.cols
    ensures var ks := Keep(t.cols, names);
      j < |ks| && ks[j] == Find(t.cols, key) && j < |Drop(t, names).cols| && Find(Drop(t, names).cols, key) == j
  {
    var d := Drop(t, names);
    var ks := Keep(t.cols, names);
    assert d.cols == Pick(t.cols, ks, "");
    var k := Find(t.cols, key);
    j :| 0 <= j < |ks| && ks[j] == k;
    forall j' | 0 <= j' < j ensures d.cols[j'] != key {
      assert ks[j'] < k;
    }
    FindFirst(d.cols, key, j);
  }

  /** Each joined row is a left row followed by one cell per kept right column. */
  lemma {:induction false} MatchRowsLength(left: seq<Cell>, r: Table, key: string, k: Cell, ks: seq<nat>)
    ensures forall m :: 0 <= m < |MatchRows(left, r, key, k, ks)| ==> |MatchRows(left, r, key, k, ks)[m]| == |left| + |ks|
    decreases |r.rows|
  {
    if r.rows != [] {
      MatchRowsLength(left, Table(r.cols, r.rows[1..]), key, k, ks);
    }
  }

  lemma {:induction false} JoinRowsLength(l: Table, r: Table, key: string)
    requires WellFormed(l)
    ensures forall i :: 0 <= i < |JoinRows(l, r, key)| ==> |JoinRows(l, r, key)[i]| == |l.cols| + |RightKeep(r.cols, key)|
    decreases |l.rows|
  {
    if l.rows != [] {
      JoinRowsLength(Table(l.cols, l.rows[1..]), r, key);
      MatchRowsLength(l.rows[0], r, key, Get(l, 0, key), RightKeep(r.cols, key));
    }
  }

  /** A merge of a well-formed left table is well formed. */
  lemma MergeWellFormed(l: Table, r: Table, key: string, sl: string, sr: string)
    requires WellFormed(l) && Merge(l, r, key, sl, sr).Ok?
    ensures WellFormed(Merge(l, r, key, sl, sr).value)
  {
    JoinRowsLength(l, r, key);
  }

  /** No suffixed left column can take the key's name. */
  predicate SuffixSafe(cols: seq<string>, key: string, sl: string) {
    forall c :: c in cols && c != key ==> c + sl != key
  }

  /** The merged header carries the key at the left table's key position. */
  lemma MergeKeyColumn(l: seq<string>, r: seq<string>, key: string, sl: string, sr: string)
    requires key in l && SuffixSafe(l, key, sl)
    ensures Find(MergeCols(l, r, key, sl, sr), key) == Find(l, key)
  {
    var mc := MergeCols(l, r, key, sl, sr);
    var k := Find(l, key);
    assert mc[k] == key;
    forall j | 0 <= j < k ensures mc[j] != key {
      assert l[j] in l && l[j] != key;
    }
    FindFirst(mc, key, k);
  }

  /** Keeping rows in order keeps their keys pairwise distinct. */
  lemma {:induction false} MatchedLeftUnique(cols: seq<string>, rows: seq<seq<Cell>>, key: string, keys: set<Cell>)
    requires forall i, j :: 0 <= i < j < |rows| ==> Lookup(cols, rows[i], key) != Lookup(cols, rows[j], key)
    ensures forall i, j :: 0 <= i < j < |MatchedLeft(cols, rows, key, keys)| ==>
      Lookup(cols, MatchedLeft(cols, rows, key, keys)[i], key) != Lookup(cols, MatchedLeft(cols, rows, key, keys)[j], key)
    decreases |rows|
  {
    if rows != [] {
      var tail := rows[1..];
      MatchedLeftUnique(cols, tail, key, keys);
      var m := MatchedLeft(cols, rows, key, keys);
      var m' := MatchedLeft(cols, tail, key, keys);
      if Lookup(cols, rows[0], key) in keys {
        assert m == [rows[0]] + m';
        forall i, j | 0 <= i < j < |m| ensures Lookup(cols, m[i], key) != Lookup(cols, m[j], key) {
          assert m[j] == m'[j - 1] && m'[j - 1] in m';
          if i > 0 {
            assert m[i] == m'[i - 1];
          } else {
            var jt :| 0 <= jt < |tail| && tail[jt] == m[j];
            assert rows[jt + 1] == m[j] && m[i] == rows[0];
            assert Lookup(cols, rows[0], key) != Lookup(cols, rows[jt + 1], key);
          }
        }
      } else {
        assert m == m';
        forall i, j | 0 <= i < j < |m| ensures Lookup(cols, m[i], key) != Lookup(cols, m[j], key) {
          assert m[i] == m'[i] && m[j] == m'[j];
        }
      }
    }
  }

  /** Row i of the join carries the key of the i-th left row that matched. */
  lemma MergeKeyCells(l: Table, r: Table, key: string, sl: string, sr: string)
    requires WellFormed(l) && key in l.cols && key in r.cols && UniqueKeys(r, key)
    requires SuffixSafe(l.cols, key, sl)
    ensures var m := Merge(l, r, key, sl, sr).value;
      var ml := MatchedLeft(l.cols, l.rows, key, KeySet(r, key));
      |m.rows| == |ml| && key in m.cols &&
      forall i :: 0 <= i < |m.rows| ==> Get(m, i, key) == Lookup(l.cols, ml[i], key)
  {
    var m := Merge(l, r, key, sl, sr).value;
    MergeKeyColumn(l.cols, r.cols, key, sl, sr);
    var k := Find(l.cols, key);
    var ml := MatchedLeft(l.cols, l.rows, key, KeySet(r, key));
    JoinRowsLeft(l, r, key);
    forall i | 0 <= i < |m.rows| ensures Get(m, i, key) == Lookup(l.cols, ml[i], key) {
      assert ml[i] in ml;
      var j :| 0 <= j < |l.rows| && l.rows[j] == ml[i];
      assert m.rows[i][..|ml[i]|] == ml[i];
      assert m.rows[i][k] == ml[i][k];
    }
  }

  /** The inner join on a key the right side holds once per row: the merged
      keys are exactly those both sides have, and unique keys on the left
      stay unique. */
  lemma MergeKeys(l: Table, r: Table, key: string, sl: string, sr: string)
    requires WellFormed(l) && key in l.cols && key in r.cols && UniqueKeys(r, key)
    requires SuffixSafe(l.cols, key, sl)
    ensures Merge(l, r, key, sl, sr).Ok?
    ensures var m := Merge(l, r, key, sl, sr).value;
      key in m.cols &&
      KeySet(m, key) == KeySet(l, key) * KeySet(r, key) &&
      (UniqueKeys(l, key) ==> UniqueKeys(m, key))
  {
    var m := Merge(l, r, key, sl, sr).value;
    var kr := KeySet(r, key);
    var ml := MatchedLeft(l.cols, l.rows, key, kr);
    MergeKeyCells(l, r, key, sl, sr);
    forall x | x in KeySet(m, key) ensures x in KeySet(l, key) * kr {
      var i :| 0 <= i < |m.rows| && Get(m, i, key) == x;
      assert ml[i] in ml;
      var j :| 0 <= j < |l.rows| && l.rows[j] == ml[i];
      assert Get(l, j, key) == x;
    }
    forall x | x in KeySet(l, key) * kr ensures x in KeySet(m, key) {
      var j :| 0 <= j < |l.rows| && Get(l, j, key) == x;
      assert l.rows[j] in ml;
      var i :| 0 <= i < |ml| && ml[i] == l.rows[j];
      assert Get(m, i, key) == x;
    }
    if UniqueKeys(l, key) {
      forall i, j | 0 <= i < j < |l.rows| ensures Lookup(l.cols, l.rows[i], key) != Lookup(l.cols, l.rows[j], key) {
        assert Get(l, i, key) != Get(l, j, key);
      }
      MatchedLeftUnique(l.cols, l.rows, key, kr);
    }
  }

  // ----- in-place operations -----

  /** A DataFrame variable that the scripts update in place. */
  class FrameRef {
    var table: Table

    constructor (t: Table)
      ensures table == t
    {
      table := t;
    }

    /** `rename(columns=m, inplace=True)`. */
    method RenameColumns(m: map<string, string>)
      modifies this
      ensures table == Rename(old(table), m)
    {
      table := Rename(table, m);
    }

    /** `t[name] = v`. */
    method SetColumn(name: string, v: Cell)
      requires WellFormed(table)
      modifies this
      ensures table == SetConst(old(table), name, v)
    {
      table := SetConst(table, name, v);
    }

    /** `drop(columns=names, errors='ignore', inplace=True)`. */
    method DropColumns(names: set<string>)
      modifies this
      ensures table == Drop(old(table), names)
    {
      table := Drop(table, names);
    }

    /** `drop_duplicates(subset=[key], inplace=True)`: one pass over the rows
      keeping each row whose key was not met before. */
    method DropDuplicates(key: string)
      modifies this
      ensures table == DedupFirst(old(table), key)
    {
      var rows := table.rows;
      var kept: seq<seq<Cell>> := [];
      var seen: set<Cell> := {};
      var i := 0;
      while i < |rows|
        invariant 0 <= i <= |rows|
        invariant kept + FirstRows(table.cols, rows[i..], key, seen) == FirstRows(table.cols, rows, key, {})
      {
        var k := Lookup(table.cols, rows[i], key);
        assert rows[i..] == [rows[i]] + rows[i + 1..];
        if k !in seen {
          kept := kept + [rows[i]];
          seen := seen + {k};
        }
        i := i + 1;
      }
      assert rows[i..] == [];
      table := Table(table.cols, kept);
    }
  }
}
