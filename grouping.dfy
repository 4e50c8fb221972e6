/** `groupby(key)[col].mean()` and `.sum()` on a table of cells: the rows
    whose key cell gives a group key (a timestamp's day, a year) are
    grouped, rows without one (NaT) fall out, and each group's present
    numbers are reduced. A text value in a grouped row makes the reduction
    fail, as pandas' does on an object column. */
module Grouping {
  import opened Wrappers
  import opened Stats
  import opened Aggregate
  import opened Frames
  import opened Columns

  /** The day of a timestamp cell; NaT and anything else has no group. */
  function DayKey(c: Cell): (k: Option<int>)
    ensures k.Some? <==> c.Date?
  {
    if c.Date? then Some(c.day) else None
  }

  /** The (key, value) observations of the rows whose key cell gives a key,
      in row order. */
  function Observations(cols: seq<string>, rows: seq<seq<Cell>>, key: string, keyOf: Cell -> Option<int>, val: string): (xs: seq<Obs>)
    ensures |xs| <= |rows|
    decreases |rows|
  {
    if rows == [] then []
    else
      var k := keyOf(Lookup(cols, rows[0], key));
      (if k.Some? then [Obs(k.value, NumOf(Lookup(cols, rows[0], val)))] else [])
        + Observations(cols, rows[1..], key, keyOf, val)
  }

  /** Reference definition of one group: the values of the rows with key k,
      in row order. */
  function GroupValues(cols: seq<string>, rows: seq<seq<Cell>>, key: string, keyOf: Cell -> Option<int>, val: string, k: int): seq<Option<real>>
    decreases |rows|
  {
    if rows == [] then []
    else
      (if keyOf(Lookup(cols, rows[0], key)) == Some(k) then [NumOf(Lookup(cols, rows[0], val))] else [])
        + GroupValues(cols, rows[1..], key, keyOf, val, k)
  }

  /** A key occurs among the observations exactly when some row has it. */
  lemma {:induction false} ObservationKeys(cols: seq<string>, rows: seq<seq<Cell>>, key: string, keyOf: Cell -> Option<int>, val: string, k: int)
    ensures k in Keys(Observations(cols, rows, key, keyOf, val)) <==>
      exists i :: 0 <= i < |rows| && keyOf(Lookup(cols, rows[i], key)) == Some(k)
    decreases |rows|
  {
    if rows != [] {
      ObservationKeys(cols, rows[1..], key, keyOf, val, k);
      var head := keyOf(Lookup(cols, rows[0], key));
      var rest := Observations(cols, rows[1..], key, keyOf, val);
      var xs := Observations(cols, rows, key, keyOf, val);
      if head.Some? {
        assert Keys(xs) == [head.value] + Keys(rest);
      } else {
        assert Keys(xs) == Keys(rest);
      }
      if exists i :: 0 <= i < |rows| && keyOf(Lookup(cols, rows[i], key)) == Some(k) {
        var i :| 0 <= i < |rows| && keyOf(Lookup(cols, rows[i], key)) == Some(k);
        if i > 0 {
          assert rows[1..][i - 1] == rows[i];
        }
      }
      if exists i :: 0 <= i < |rows[1..]| && keyOf(Lookup(cols, rows[1..][i], key)) == Some(k) {
        var i :| 0 <= i < |rows[1..]| && keyOf(Lookup(cols, rows[1..][i], key)) == Some(k);
        assert rows[i + 1] == rows[1..][i];
      }
    }
  }

  /** The values under key k among the observations are the group's values. */
  lemma {:induction false} ObservationValues(cols: seq<string>, rows: seq<seq<Cell>>, key: string, keyOf: Cell -> Option<int>, val: string, k: int)
    ensures ValuesAt(Observations(cols, rows, key, keyOf, val), k) == GroupValues(cols, rows, key, keyOf, val, k)
    decreases |rows|
  {
    if rows != [] {
      ObservationValues(cols, rows[1..], key, keyOf, val, k);
      var head := keyOf(Lookup(cols, rows[0], key));
      var rest := Observations(cols, rows[1..], key, keyOf, val);
      var xs := Observations(cols, rows, key, keyOf, val);
      if head.Some? {
        assert xs == [Obs(head.value, NumOf(Lookup(cols, rows[0], val)))] + rest;
        assert xs[1..] == rest;
      } else {
        assert xs == rest;
      }
    }
  }

  /** A grouped row whose value is text. */
  predicate TextValue(t: Table, key: string, keyOf: Cell -> Option<int>, val: string) {
    exists i :: 0 <= i < |t.rows| && keyOf(Get(t, i, key)).Some? && Get(t, i, val).Text?
  }

  /** `groupby(key)[val].mean()`: one row per key, ascending, each the mean
      of the group's present numbers. */
  function GroupedMean(t: Table, key: string, keyOf: Cell -> Option<int>, val: string): (r: Outcome<seq<Obs>>)
    ensures r.Err? <==> TextValue(t, key, keyOf, val)
  {
    if TextValue(t, key, keyOf, val) then Err("agg function failed [how->mean,dtype->object]")
    else Ok(GroupMean(Observations(t.cols, t.rows, key, keyOf, val)))
  }

  /** `groupby(key)[val].sum()`: one row per key, ascending, each the sum of
      the group's present numbers (0 for a group with none). */
  function GroupedSum(t: Table, key: string, keyOf: Cell -> Option<int>, val: string): (r: Outcome<seq<Obs>>)
    ensures r.Err? <==> TextValue(t, key, keyOf, val)
  {
    if TextValue(t, key, keyOf, val) then Err("unsupported operand type(s) for +")
    else Ok(GroupSum(Observations(t.cols, t.rows, key, keyOf, val)))
  }

  /** The grouped means: ascending, one row for every key some row has and
      no other, each the mean of that key's present values. */
  lemma GroupedMeanFacts(t: Table, key: string, keyOf: Cell -> Option<int>, val: string)
    requires GroupedMean(t, key, keyOf, val).Ok?
    ensures var r := GroupedMean(t, key, keyOf, val).value;
      Ascending(r) &&
      (forall k :: k in Keys(r) <==> exists i :: 0 <= i < |t.rows| && keyOf(Get(t, i, key)) == Some(k)) &&
      (forall i :: 0 <= i < |r| ==> r[i].val == MeanSkipNa(GroupValues(t.cols, t.rows, key, keyOf, val, r[i].key)))
  {
    var xs := Observations(t.cols, t.rows, key, keyOf, val);
    var r := GroupMean(xs);
    forall k ensures k in Keys(r) <==> exists i :: 0 <= i < |t.rows| && keyOf(Get(t, i, key)) == Some(k) {
      ObservationKeys(t.cols, t.rows, key, keyOf, val, k);
      assert k in Keys(r) <==> k in Keys(xs);
      assert forall i :: 0 <= i < |t.rows| ==> Get(t, i, key) == Lookup(t.cols, t.rows[i], key);
    }
    forall i | 0 <= i < |r| ensures r[i].val == MeanSkipNa(GroupValues(t.cols, t.rows, key, keyOf, val, r[i].key)) {
      ObservationValues(t.cols, t.rows, key, keyOf, val, r[i].key);
    }
  }

  /** The grouped sums: ascending, one row per key some row has, each the
      sum of that key's present values. */
  lemma GroupedSumFacts(t: Table, key: string, keyOf: Cell -> Option<int>, val: string)
    requires GroupedSum(t, key, keyOf, val).Ok?
    ensures var r := GroupedSum(t, key, keyOf, val).value;
      Ascending(r) &&
      (forall k :: k in Keys(r) <==> exists i :: 0 <= i < |t.rows| && keyOf(Get(t, i, key)) == Some(k)) &&
      (forall i :: 0 <= i < |r| ==> r[i].val == Some(SumSkipNa(GroupValues(t.cols, t.rows, key, keyOf, val, r[i].key))))
  {
    var xs := Observations(t.cols, t.rows, key, keyOf, val);
    var r := GroupSum(xs);
    forall k ensures k in Keys(r) <==> exists i :: 0 <= i < |t.rows| && keyOf(Get(t, i, key)) == Some(k) {
      ObservationKeys(t.cols, t.rows, key, keyOf, val, k);
      assert k in Keys(r) <==> k in Keys(xs);
      assert forall i :: 0 <= i < |t.rows| ==> Get(t, i, key) == Lookup(t.cols, t.rows[i], key);
    }
    forall i | 0 <= i < |r| ensures r[i].val == Some(SumSkipNa(GroupValues(t.cols, t.rows, key, keyOf, val, r[i].key))) {
      ObservationValues(t.cols, t.rows, key, keyOf, val, r[i].key);
    }
  }
  /** Two tables whose rows agree, position by position, on the group key
      and the value give the same observations. */
  lemma {:induction false} ObservationsAgree(c1: seq<string>, r1: seq<seq<Cell>>, k1: string, f1: Cell -> Option<int>, v1: string,
                                             c2: seq<string>, r2: seq<seq<Cell>>, k2: string, f2: Cell -> Option<int>, v2: string)
    requires |r1| == |r2|
    requires forall i :: 0 <= i < |r1| ==>
      f1(Lookup(c1, r1[i], k1)) == f2(Lookup(c2, r2[i], k2)) && Lookup(c1, r1[i], v1) == Lookup(c2, r2[i], v2)
    ensures Observations(c1, r1, k1, f1, v1) == Observations(c2, r2, k2, f2, v2)
    decreases |r1|
  {
    if r1 != [] {
      assert forall i :: 1 <= i < |r1| ==> r1[1..][i - 1] == r1[i] && r2[1..][i - 1] == r2[i];
      ObservationsAgree(c1, r1[1..], k1, f1, v1, c2, r2[1..], k2, f2, v2);
    }
  }

  /** Tables that agree row by row on key and value group alike: the same
      error, the same means. */
  lemma GroupedMeanAgree(t1: Table, k1: string, f1: Cell -> Option<int>, v1: string,
                         t2: Table, k2: string, f2: Cell -> Option<int>, v2: string)
    requires |t1.rows| == |t2.rows|
    requires forall i :: 0 <= i < |t1.rows| ==> f1(Get(t1, i, k1)) == f2(Get(t2, i, k2)) && Get(t1, i, v1) == Get(t2, i, v2)
    ensures GroupedMean(t1, k1, f1, v1) == GroupedMean(t2, k2, f2, v2)
    ensures GroupedSum(t1, k1, f1, v1) == GroupedSum(t2, k2, f2, v2)
  {
    forall i | 0 <= i < |t1.rows|
      ensures f1(Lookup(t1.cols, t1.rows[i], k1)) == f2(Lookup(t2.cols, t2.rows[i], k2))
      ensures Lookup(t1.cols, t1.rows[i], v1) == Lookup(t2.cols, t2.rows[i], v2)
    {
      assert Get(t1, i, k1) == Lookup(t1.cols, t1.rows[i], k1) && Get(t2, i, k2) == Lookup(t2.cols, t2.rows[i], k2);
      assert Get(t1, i, v1) == Lookup(t1.cols, t1.rows[i], v1) && Get(t2, i, v2) == Lookup(t2.cols, t2.rows[i], v2);
    }
    ObservationsAgree(t1.cols, t1.rows, k1, f1, v1, t2.cols, t2.rows, k2, f2, v2);
    assert TextValue(t1, k1, f1, v1) <==> TextValue(t2, k2, f2, v2);
  }
}
