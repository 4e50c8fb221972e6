/** Column-wise DataFrame operations the cleaning and forecasting scripts use
    on a table of cells: assigning a whole column, keeping the rows whose
    cell in one column passes a test (`df[mask]`, `dropna(subset=[c])`), and
    the per-cell conversions of `pd.to_numeric` and `pd.to_datetime`. */
module Columns {
  import opened Wrappers
  import opened Frames

  // ----- assigning a column -----

  /** `t[name] = cells`: an existing column of that name is overwritten in
      place, otherwise the column is appended. */
  function PutColumn(t: Table, name: string, cells: seq<Cell>): (r: Table)
    requires WellFormed(t) && |cells| == |t.rows|
    ensures WellFormed(r) && |r.rows| == |t.rows|
    ensures name in t.cols ==> r.cols == t.cols
    ensures name !in t.cols ==> r.cols == t.cols + [name]
    ensures forall i :: 0 <= i < |r.rows| ==> Get(r, i, name) == cells[i]
  {
    var k := Find(t.cols, name);
    if k < |t.cols| then
      Table(t.cols, seq(|t.rows|, i requires 0 <= i < |t.rows| => t.rows[i][k := cells[i]]))
    else
      var r := Table(t.cols + [name], seq(|t.rows|, i requires 0 <= i < |t.rows| => t.rows[i] + [cells[i]]));
      assert forall i :: 0 <= i < |r.rows| ==> Get(r, i, name) == cells[i] by {
        forall i | 0 <= i < |r.rows| ensures Get(r, i, name) == cells[i] {
          FindFirst(r.cols, name, |t.cols|);
        }
      }
      r
  }

  /** Assigning one column leaves every other column's values alone. */
  lemma PutKeepsOthers(t: Table, name: string, cells: seq<Cell>, i: nat, c: string)
    requires WellFormed(t) && |cells| == |t.rows| && i < |t.rows| && c != name
    ensures Get(PutColumn(t, name, cells), i, c) == Get(t, i, c)
  {
    var r := PutColumn(t, name, cells);
    var k := Find(t.cols, c);
    if name !in t.cols && k < |t.cols| {
      FindInPrefix(t.cols, [name], c);
    } else if name !in t.cols {
      assert c !in r.cols;
    }
  }

  /** A cell-wise conversion of one column (`t[c] = f(t[c])`). */
  function MapColumn(t: Table, name: string, f: Cell -> Cell): (r: Table)
    requires WellFormed(t)
    ensures WellFormed(r) && |r.rows| == |t.rows|
    ensures name in t.cols ==> r.cols == t.cols
    ensures forall i :: 0 <= i < |r.rows| ==> Get(r, i, name) == f(Get(t, i, name))
  {
    var cells := KeyCol(t, name);
    PutColumn(t, name, seq(|cells|, i requires 0 <= i < |cells| => f(cells[i])))
  }

  /** `t[dst] = f(t[src])`, cell by cell; the other columns keep their
      values. */
  function Derive(t: Table, src: string, dst: string, f: Cell -> Cell): (r: Table)
    requires WellFormed(t)
    ensures WellFormed(r) && |r.rows| == |t.rows|
    ensures dst in t.cols ==> r.cols == t.cols
    ensures dst !in t.cols ==> r.cols == t.cols + [dst]
    ensures forall i :: 0 <= i < |r.rows| ==> Get(r, i, dst) == f(Get(t, i, src))
    ensures forall i, c :: 0 <= i < |r.rows| && c != dst ==> Get(r, i, c) == Get(t, i, c)
  {
    var cells := seq(|t.rows|, i requires 0 <= i < |t.rows| => f(Get(t, i, src)));
    var r := PutColumn(t, dst, cells);
    forall i, c | 0 <= i < |r.rows| && c != dst ensures Get(r, i, c) == Get(t, i, c) {
      PutKeepsOthers(t, dst, cells, i, c);
    }
    r
  }

  /** `t[dst] = f(t[a], t[b])`, cell by cell; the other columns keep their
      values. */
  function Derive2(t: Table, a: string, b: string, dst: string, f: (Cell, Cell) -> Cell): (r: Table)
    requires WellFormed(t)
    ensures WellFormed(r) && |r.rows| == |t.rows|
    ensures dst in t.cols ==> r.cols == t.cols
    ensures dst !in t.cols ==> r.cols == t.cols + [dst]
    ensures forall i :: 0 <= i < |r.rows| ==> Get(r, i, dst) == f(Get(t, i, a), Get(t, i, b))
    ensures forall i, c :: 0 <= i < |r.rows| && c != dst ==> Get(r, i, c) == Get(t, i, c)
  {
    var cells := seq(|t.rows|, i requires 0 <= i < |t.rows| => f(Get(t, i, a), Get(t, i, b)));
    var r := PutColumn(t, dst, cells);
    forall i, c | 0 <= i < |r.rows| && c != dst ensures Get(r, i, c) == Get(t, i, c) {
      PutKeepsOthers(t, dst, cells, i, c);
    }
    r
  }

  // ----- keeping rows -----

  /** The rows whose cell under column c passes p, in their order. */
  function KeepRows(cols: seq<string>, rows: seq<seq<Cell>>, c: string, p: Cell -> bool): (r: seq<seq<Cell>>)
    ensures |r| <= |rows|
    ensures forall j :: 0 <= j < |r| ==> r[j] in rows && p(Lookup(cols, r[j], c))
    decreases |rows|
  {
    if rows == [] then []
    else (if p(Lookup(cols, rows[0], c)) then [rows[0]] else []) + KeepRows(cols, rows[1..], c, p)
  }

  /** `t[p(t[c])]`: the header stays, the rows failing the test go. */
  function Where(t: Table, c: string, p: Cell -> bool): (r: Table)
    ensures r.cols == t.cols && (WellFormed(t) ==> WellFormed(r))
  {
    Table(t.cols, KeepRows(t.cols, t.rows, c, p))
  }

  /** The filter's first step. */
  lemma KeepRowsCons(cols: seq<string>, row: seq<Cell>, rest: seq<seq<Cell>>, c: string, p: Cell -> bool)
    ensures KeepRows(cols, [row] + rest, c, p) == (if p(Lookup(cols, row, c)) then [row] else []) + KeepRows(cols, rest, c, p)
  {
    assert ([row] + rest)[1..] == rest;
  }

  /** A cell that is not NaN / NaT. */
  predicate Filled(c: Cell) {
    !c.Null?
  }

  /** `dropna(subset=[c])`. */
  function DropMissing(t: Table, c: string): Table {
    Where(t, c, Filled)
  }

  /** Every row that passes the test is kept. */
  lemma {:induction false} KeepRowsAll(cols: seq<string>, rows: seq<seq<Cell>>, c: string, p: Cell -> bool)
    ensures forall i :: 0 <= i < |rows| && p(Lookup(cols, rows[i], c)) ==> rows[i] in KeepRows(cols, rows, c, p)
    decreases |rows|
  {
    if rows != [] {
      KeepRowsAll(cols, rows[1..], c, p);
      forall i | 1 <= i < |rows| ensures rows[i] == rows[1..][i - 1] {
      }
    }
  }

  /** Filtering commutes with concatenation, so the kept rows keep their
      relative order. */
  lemma {:induction false} KeepRowsConcat(cols: seq<string>, a: seq<seq<Cell>>, b: seq<seq<Cell>>, c: string, p: Cell -> bool)
    ensures KeepRows(cols, a + b, c, p) == KeepRows(cols, a, c, p) + KeepRows(cols, b, c, p)
    decreases |a|
  {
    if a != [] {
      var head := if p(Lookup(cols, a[0], c)) then [a[0]] else [];
      assert (a + b)[0] == a[0] && (a + b)[1..] == a[1..] + b;
      assert KeepRows(cols, a + b, c, p) == head + KeepRows(cols, a[1..] + b, c, p);
      assert KeepRows(cols, a, c, p) == head + KeepRows(cols, a[1..], c, p);
      KeepRowsConcat(cols, a[1..], b, c, p);
    } else {
      assert a + b == b;
    }
  }

  /** The kept rows are exactly the rows that pass, with their header; the
      table stays well formed. */
  lemma WhereRows(t: Table, c: string, p: Cell -> bool)
    ensures var r := Where(t, c, p);
      r.cols == t.cols && |r.rows| <= |t.rows| &&
      forall row :: row in r.rows <==> row in t.rows && p(Lookup(t.cols, row, c))
    ensures WellFormed(t) ==> WellFormed(Where(t, c, p))
  {
    KeepRowsAll(t.cols, t.rows, c, p);
  }

  /** A row-filter keeps every row when every row passes. */
  lemma {:induction false} KeepRowsNone(cols: seq<string>, rows: seq<seq<Cell>>, c: string, p: Cell -> bool)
    requires forall i :: 0 <= i < |rows| ==> p(Lookup(cols, rows[i], c))
    ensures KeepRows(cols, rows, c, p) == rows
    decreases |rows|
  {
    if rows != [] {
      assert forall i :: 1 <= i < |rows| ==> rows[1..][i - 1] == rows[i];
      KeepRowsNone(cols, rows[1..], c, p);
    }
  }

  /** Filtering twice with the same test is filtering once. */
  lemma WhereIdempotent(t: Table, c: string, p: Cell -> bool)
    ensures Where(Where(t, c, p), c, p) == Where(t, c, p)
  {
    var r := Where(t, c, p);
    KeepRowsNone(r.cols, r.rows, c, p);
  }

  // ----- cell conversions -----

  /** The number a cell holds, if it is one. */
  function NumOf(c: Cell): (v: Option<real>)
    ensures v.Some? <==> c.Num?
  {
    if c.Num? then Some(c.x) else None
  }

  /** `pd.to_numeric(..., errors='coerce')` on one cell: numbers stay, text
      that reads as a number becomes it, everything else is missing. */
  function ToNumber(c: Cell, parseNum: string -> Option<real>): (r: Cell)
    ensures r.Null? || r.Num?
    ensures c.Num? ==> r == c
    ensures c.Text? ==> (r.Num? <==> parseNum(c.s).Some?)
  {
    match c
    case Num(_) => c
    case Text(s) => if parseNum(s).Some? then Num(parseNum(s).value) else Null
    case _ => Null
  }

  /** `pd.to_datetime(..., errors='coerce')` on one cell: timestamps stay,
      text the parser reads becomes its day, everything else is NaT. */
  function ToDate(c: Cell, parse: string -> Option<int>): (r: Cell)
    ensures r.Null? || r.Date?
    ensures c.Date? ==> r == c
    ensures c.Text? ==> (r.Date? <==> parse(c.s).Some?)
  {
    match c
    case Date(_) => c
    case Text(s) => if parse(s).Some? then Date(parse(s).value) else Null
    case _ => Null
  }

  /** `pd.to_datetime(errors='coerce')` as a cell function. */
  function DateCoerce(parse: string -> Option<int>): Cell -> Cell {
    c => ToDate(c, parse)
  }

  /** A cell strict `pd.to_datetime` cannot convert: text the parser
      rejects, or a number. pandas would read an integer as nanoseconds
      since the epoch rather than raise; the model counts a number as
      unconvertible because every date column the scripts parse is read as
      text, so no number reaches this conversion. */
  predicate BadDateCell(c: Cell, parse: string -> Option<int>) {
    (c.Text? && parse(c.s).None?) || c.Num?
  }

  /** Strict `pd.to_datetime` on a column: an error at the first cell it
      cannot convert, otherwise each cell converted (missing stays NaT). */
  function StrictDates(cells: seq<Cell>, parse: string -> Option<int>): (r: Outcome<seq<Cell>>)
    ensures r.Err? <==> exists i :: 0 <= i < |cells| && BadDateCell(cells[i], parse)
    ensures r.Ok? ==> |r.value| == |cells| && forall i :: 0 <= i < |cells| ==> r.value[i] == ToDate(cells[i], parse)
  {
    if exists i :: 0 <= i < |cells| && BadDateCell(cells[i], parse) then
      Err("Unknown datetime string format, unable to parse")
    else Ok(seq(|cells|, i requires 0 <= i < |cells| => ToDate(cells[i], parse)))
  }

  /** The column holds only numbers and missing values (a float64 column). */
  predicate NumericColumn(t: Table, c: string) {
    forall i :: 0 <= i < |t.rows| ==> Get(t, i, c).Num? || Get(t, i, c).Null?
  }
}
