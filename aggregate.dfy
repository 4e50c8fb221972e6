/** Keyed aggregation as pandas performs it on one value column: `groupby(key)`
    followed by a reduction, `resample('M')` on a date index, `dropna`, a
    stable `sort_values`, and forward/backward filling. Keys are integers:
    day numbers, month keys or years. */
module Aggregate {
  import opened Wrappers
  import opened Stats

  /** One row of a keyed column: the key and a value that may be missing. */
  datatype Obs = Obs(key: int, val: Option<real>)

  /** A row whose value is present. */
  datatype Point = Point(key: int, val: real)

  /** The value column of a series, in key order. */
  function Values(ps: seq<Point>): (vs: seq<real>)
    ensures |vs| == |ps| && forall i :: 0 <= i < |ps| ==> vs[i] == ps[i].val
  {
    seq(|ps|, i requires 0 <= i < |ps| => ps[i].val)
  }

  function Keys(xs: seq<Obs>): (ks: seq<int>)
    ensures |ks| == |xs| && forall i :: 0 <= i < |xs| ==> ks[i] == xs[i].key
  {
    seq(|xs|, i requires 0 <= i < |xs| => xs[i].key)
  }

  function PointKeys(ps: seq<Point>): (ks: seq<int>)
    ensures |ks| == |ps| && forall i :: 0 <= i < |ps| ==> ks[i] == ps[i].key
  {
    seq(|ps|, i requires 0 <= i < |ps| => ps[i].key)
  }

  /** Keys strictly ascending: sorted and free of duplicates. */
  predicate Increasing(ks: seq<int>) {
    forall i, j :: 0 <= i < j < |ks| ==> ks[i] < ks[j]
  }

  function InsertKey(k: int, ks: seq<int>): (r: seq<int>)
    requires Increasing(ks)
    ensures Increasing(r)
    ensures forall x :: x in r <==> x == k || x in ks
  {
    if ks == [] || k < ks[0] then [k] + ks
    else if k == ks[0] then ks
    else
      var t := InsertKey(k, ks[1..]);
      assert forall x :: x in ks[1..] ==> ks[0] < x;
      assert forall i :: 0 <= i < |t| ==> ks[0] < t[i] by {
        forall i | 0 <= i < |t| ensures ks[0] < t[i] {
          assert t[i] in t;
        }
      }
      assert forall x :: x in ks <==> x == ks[0] || x in ks[1..] by {
        assert ks == [ks[0]] + ks[1..];
      }
      [ks[0]] + t
  }

  /** The distinct keys in ascending order (the index of a groupby result). */
  function Distinct(ks: seq<int>): (r: seq<int>)
    ensures Increasing(r)
    ensures forall x :: x in r <==> x in ks
  {
    if ks == [] then []
    else
      assert ks == [ks[0]] + ks[1..];
      InsertKey(ks[0], Distinct(ks[1..]))
  }

  /** Two ascending key sequences holding the same keys are the same sequence. */
  lemma {:induction false} IncreasingUnique(a: seq<int>, b: seq<int>)
    requires Increasing(a) && Increasing(b)
    requires forall x :: x in a <==> x in b
    ensures a == b
  {
    assert a == [] <==> b == [] by {
      if a != [] { assert a[0] in a; }
      if b != [] { assert b[0] in b; }
    }
    if a != [] {
      assert a[0] in b && b[0] in a;
      assert a[0] == b[0];
      forall x ensures x in a[1..] <==> x in b[1..] {
        assert x in a[1..] <==> x in a && x != a[0];
        assert x in b[1..] <==> x in b && x != b[0];
      }
      IncreasingUnique(a[1..], b[1..]);
      assert a == [a[0]] + a[1..] && b == [b[0]] + b[1..];
    }
  }

  /** Rows strictly ascending by key. */
  predicate Ascending(xs: seq<Obs>) {
    forall i, j :: 0 <= i < j < |xs| ==> xs[i].key < xs[j].key
  }

  predicate AscendingPoints(ps: seq<Point>) {
    forall i, j :: 0 <= i < j < |ps| ==> ps[i].key < ps[j].key
  }

  /** The values recorded under key k, in row order. */
  function ValuesAt(xs: seq<Obs>, k: int): (v: seq<Option<real>>)
    ensures |v| <= |xs|
  {
    if xs == [] then []
    else (if xs[0].key == k then [xs[0].val] else []) + ValuesAt(xs[1..], k)
  }

  /** A key has values exactly when it occurs. */
  lemma {:induction false} ValuesAtEmpty(xs: seq<Obs>, k: int)
    ensures |ValuesAt(xs, k)| == 0 <==> k !in Keys(xs)
  {
    if xs != [] {
      assert Keys(xs) == [xs[0].key] + Keys(xs[1..]);
      ValuesAtEmpty(xs[1..], k);
    }
  }

  /** On ascending keys, every key holds exactly one row. */
  lemma {:induction false} ValuesAtUnique(xs: seq<Obs>, i: int)
    requires Ascending(xs) && 0 <= i < |xs|
    ensures ValuesAt(xs, xs[i].key) == [xs[i].val]
  {
    var t := xs[1..];
    assert forall j :: 0 <= j < |t| ==> t[j] == xs[j + 1];
    if i == 0 {
      assert xs[0].key !in Keys(t);
      ValuesAtEmpty(t, xs[0].key);
    } else {
      ValuesAtUnique(t, i - 1);
    }
  }

  /** `groupby(key)[col].agg()`: one row per distinct key, ascending, holding
      the reduction of that key's values. */
  function GroupAgg(xs: seq<Obs>, agg: seq<Option<real>> -> Option<real>): (r: seq<Obs>)
    ensures Ascending(r)
    ensures forall k :: k in Keys(r) <==> k in Keys(xs)
    ensures forall i :: 0 <= i < |r| ==> r[i].val == agg(ValuesAt(xs, r[i].key))
  {
    var ks := Distinct(Keys(xs));
    var r := seq(|ks|, i requires 0 <= i < |ks| => Obs(ks[i], agg(ValuesAt(xs, ks[i]))));
    assert Keys(r) == ks;
    r
  }

  /** `groupby(key)[col].mean()`: the mean of the present values per key. */
  function GroupMean(xs: seq<Obs>): seq<Obs> {
    GroupAgg(xs, MeanSkipNa)
  }

  /** `groupby(key)[col].sum()`: the sum of the present values per key (0
      for a key whose values are all missing). */
  function GroupSum(xs: seq<Obs>): seq<Obs> {
    GroupAgg(xs, s => Some(SumSkipNa(s)))
  }

  lemma MeanOfOne(v: Option<real>)
    ensures MeanSkipNa([v]) == v
  {
    if v.Some? {
      assert Present([v]) == [v.value] by {
        assert Present([v][1..]) == [];
      }
      assert Sum([v.value]) == v.value + Sum([]);
    } else {
      assert Present([v]) == Present([v][1..]);
    }
  }

  /** Grouping by key twice gives the same table as grouping once: the first
      pass already leaves one row per key. */
  lemma GroupMeanIdempotent(xs: seq<Obs>)
    ensures GroupMean(GroupMean(xs)) == GroupMean(xs)
  {
    var r := GroupMean(xs);
    var r2 := GroupMean(r);
    assert Increasing(Keys(r)) && Increasing(Keys(r2));
    IncreasingUnique(Keys(r2), Keys(r));
    assert |r2| == |r|;
    forall i | 0 <= i < |r| ensures r2[i] == r[i] {
      assert r2[i].key == Keys(r2)[i] == Keys(r)[i] == r[i].key;
      ValuesAtUnique(r, i);
      MeanOfOne(r[i].val);
    }
  }

  // ----- dropna -----

  /** `dropna()`: the rows whose value is present, in order. */
  function DropNa(xs: seq<Obs>): (r: seq<Point>)
    ensures |r| <= |xs|
    ensures forall i :: 0 <= i < |r| ==> Obs(r[i].key, Some(r[i].val)) in xs
    ensures forall j :: 0 <= j < |xs| && xs[j].val.Some? ==> Point(xs[j].key, xs[j].val.value) in r
  {
    if xs == [] then []
    else
      var t := DropNa(xs[1..]);
      assert forall j :: 1 <= j < |xs| ==> xs[j] == xs[1..][j - 1];
      (if xs[0].val.Some? then [Point(xs[0].key, xs[0].val.value)] else []) + t
  }

  /** dropna keeps the order of the rows it keeps. */
  lemma {:induction false} DropNaAscending(xs: seq<Obs>)
    requires Ascending(xs)
    ensures AscendingPoints(DropNa(xs))
  {
    if xs != [] {
      var t := DropNa(xs[1..]);
      DropNaAscending(xs[1..]);
      forall i | 0 <= i < |t| ensures xs[0].key < t[i].key {
        var u :| 0 <= u < |xs[1..]| && xs[1..][u] == Obs(t[i].key, Some(t[i].val));
        assert xs[u + 1].key == t[i].key;
      }
      if xs[0].val.Some? {
        ConsAscending(Point(xs[0].key, xs[0].val.value), t);
      }
    }
  }

  /** A point below every key of an ascending sequence can go first. */
  lemma ConsAscending(p: Point, t: seq<Point>)
    requires AscendingPoints(t) && forall i :: 0 <= i < |t| ==> p.key < t[i].key
    ensures AscendingPoints([p] + t)
  {
    var r := [p] + t;
    forall i, j | 0 <= i < j < |r| ensures r[i].key < r[j].key {
      assert r[j] == t[j - 1];
      if i > 0 {
        assert r[i] == t[i - 1];
      }
    }
  }

  /** Ascending point sequences with the same points are equal. */
  lemma {:induction false} PointsUnique(a: seq<Point>, b: seq<Point>)
    requires AscendingPoints(a) && AscendingPoints(b)
    requires forall p :: p in a <==> p in b
    ensures a == b
  {
    assert a == [] <==> b == [] by {
      if a != [] { assert a[0] in a; }
      if b != [] { assert b[0] in b; }
    }
    if a != [] {
      assert a[0] in b && b[0] in a;
      assert a[0] == b[0] by {
        assert forall p :: p in a ==> a[0].key <= p.key;
        assert forall p :: p in b ==> b[0].key <= p.key;
      }
      forall p ensures p in a[1..] <==> p in b[1..] {
        assert p in a[1..] <==> p in a && p.key != a[0].key;
        assert p in b[1..] <==> p in b && p.key != b[0].key;
      }
      PointsUnique(a[1..], b[1..]);
      assert a == [a[0]] + a[1..] && b == [b[0]] + b[1..];
    }
  }

  // ----- resample -----

  function MinKey(xs: seq<Obs>): (m: int)
    requires |xs| > 0
    ensures forall i :: 0 <= i < |xs| ==> m <= xs[i].key
  {
    if |xs| == 1 then xs[0].key
    else
      var m := MinKey(xs[1..]);
      if xs[0].key <= m then xs[0].key else m
  }

  function MaxKey(xs: seq<Obs>): (m: int)
    requires |xs| > 0
    ensures forall i :: 0 <= i < |xs| ==> xs[i].key <= m
  {
    if |xs| == 1 then xs[0].key
    else
      var m := MaxKey(xs[1..]);
      if xs[0].key >= m then xs[0].key else m
  }

  /** n consecutive bins from lo, each with the mean of its present values. */
  function Bins(xs: seq<Obs>, lo: int, n: nat): (r: seq<Obs>)
    ensures |r| == n
    ensures forall i :: 0 <= i < n ==> r[i] == Obs(lo + i, MeanSkipNa(ValuesAt(xs, lo + i)))
  {
    seq(n, i requires 0 <= i < n => Obs(lo + i, MeanSkipNa(ValuesAt(xs, lo + i))))
  }

  /** `resample(...).mean()` on bins numbered by key: every bin from the
      first key to the last, each holding the mean of its present values,
      missing for a bin without one. */
  function Resample(xs: seq<Obs>): (r: seq<Obs>)
    ensures xs == [] ==> r == []
    ensures xs != [] ==> |r| == MaxKey(xs) - MinKey(xs) + 1
    ensures xs != [] ==> forall i :: 0 <= i < |r| ==> r[i].key == MinKey(xs) + i
    ensures forall i :: 0 <= i < |r| ==> r[i].val == MeanSkipNa(ValuesAt(xs, r[i].key))
  {
    if xs == [] then []
    else
      assert MinKey(xs) <= xs[0].key <= MaxKey(xs);
      Bins(xs, MinKey(xs), MaxKey(xs) - MinKey(xs) + 1)
  }

  /** A point survives resample-then-dropna exactly when its key occurs and
      the key's values have that mean. */
  lemma InResampled(xs: seq<Obs>, p: Point)
    ensures p in DropNa(Resample(xs)) <==>
      p.key in Keys(xs) && MeanSkipNa(ValuesAt(xs, p.key)) == Some(p.val)
  {
    if p in DropNa(Resample(xs)) {
      ResampledOccurs(xs, p);
    }
    if p.key in Keys(xs) && MeanSkipNa(ValuesAt(xs, p.key)) == Some(p.val) {
      OccursResampled(xs, p);
    }
  }

  lemma ResampledOccurs(xs: seq<Obs>, p: Point)
    requires p in DropNa(Resample(xs))
    ensures p.key in Keys(xs) && MeanSkipNa(ValuesAt(xs, p.key)) == Some(p.val)
  {
    var rs := Resample(xs);
    var d := DropNa(rs);
    var k :| 0 <= k < |d| && d[k] == p;
    assert Obs(p.key, Some(p.val)) in rs;
    var i :| 0 <= i < |rs| && rs[i] == Obs(p.key, Some(p.val));
    assert rs[i].val == MeanSkipNa(ValuesAt(xs, rs[i].key));
    var v := ValuesAt(xs, p.key);
    assert MeanSkipNa(v) == Some(p.val);
    MeanSkipNaMissing(v);
    assert |v| > 0;
    ValuesAtEmpty(xs, p.key);
  }

  lemma OccursResampled(xs: seq<Obs>, p: Point)
    requires p.key in Keys(xs) && MeanSkipNa(ValuesAt(xs, p.key)) == Some(p.val)
    ensures p in DropNa(Resample(xs))
  {
    var rs := Resample(xs);
    var j :| 0 <= j < |xs| && Keys(xs)[j] == p.key;
    var lo := MinKey(xs);
    assert lo <= xs[j].key <= MaxKey(xs);
    var i := p.key - lo;
    assert rs[i] == Obs(p.key, Some(p.val));
    assert Point(rs[i].key, rs[i].val.value) in DropNa(rs);
  }

  /** A point survives groupby-mean-then-dropna exactly when its key occurs
      and the key's values have that mean. */
  lemma InGrouped(xs: seq<Obs>, p: Point)
    ensures p in DropNa(GroupMean(xs)) <==>
      p.key in Keys(xs) && MeanSkipNa(ValuesAt(xs, p.key)) == Some(p.val)
  {
    var gs := GroupMean(xs);
    if p in DropNa(gs) {
      assert Obs(p.key, Some(p.val)) in gs;
    }
    if p.key in Keys(xs) && MeanSkipNa(ValuesAt(xs, p.key)) == Some(p.val) {
      assert p.key in Keys(gs);
      var j :| 0 <= j < |gs| && Keys(gs)[j] == p.key;
      assert gs[j] == Obs(p.key, Some(p.val));
    }
  }

  /** Resampling then dropping empty bins gives the same rows as grouping by
      bin and dropping empty groups: the bins resample adds are exactly the
      ones dropna removes. */
  lemma ResampleThenDropNa(xs: seq<Obs>)
    ensures DropNa(Resample(xs)) == DropNa(GroupMean(xs))
  {
    var a, b := DropNa(Resample(xs)), DropNa(GroupMean(xs));
    forall p ensures p in a <==> p in b {
      InResampled(xs, p);
      InGrouped(xs, p);
    }
    assert Ascending(Resample(xs));
    DropNaAscending(Resample(xs));
    DropNaAscending(GroupMean(xs));
    PointsUnique(a, b);
  }

  // ----- sorting -----

  predicate SortedBy<T>(xs: seq<T>, key: T -> int) {
    forall i, j :: 0 <= i < j < |xs| ==> key(xs[i]) <= key(xs[j])
  }

  lemma SortedByTail<T>(s: seq<T>, key: T -> int)
    requires SortedBy(s, key) && s != []
    ensures SortedBy(s[1..], key) && forall k :: 0 <= k < |s| - 1 ==> key(s[0]) <= key(s[1..][k])
  {
  }

  /** A bound on every key carries over to a permutation of the rows. */
  lemma KeyBoundByMultiset<T>(h: int, rest: seq<T>, x: T, t: seq<T>, key: T -> int)
    requires forall k :: 0 <= k < |rest| ==> h <= key(rest[k])
    requires h <= key(x) && multiset(t) == multiset(rest) + multiset{x}
    ensures forall k :: 0 <= k < |t| ==> h <= key(t[k])
  {
    forall k | 0 <= k < |t| ensures h <= key(t[k]) {
      assert t[k] in multiset(t);
      if t[k] != x {
        assert t[k] in multiset(rest);
      }
    }
  }

  lemma ConsSortedBy<T>(h: T, t: seq<T>, key: T -> int)
    requires SortedBy(t, key) && forall k :: 0 <= k < |t| ==> key(h) <= key(t[k])
    ensures SortedBy([h] + t, key)
  {
    var r := [h] + t;
    forall i, j | 0 <= i < j < |r| ensures key(r[i]) <= key(r[j]) {
      assert r[j] == t[j - 1];
      if i > 0 {
        assert r[i] == t[i - 1];
      }
    }
  }

  function InsertBy<T>(x: T, s: seq<T>, key: T -> int): (r: seq<T>)
    requires SortedBy(s, key)
    ensures SortedBy(r, key) && multiset(r) == multiset(s) + multiset{x}
  {
    if s == [] || key(x) <= key(s[0]) then [x] + s
    else
      assert s == [s[0]] + s[1..];
      SortedByTail(s, key);
      var t := InsertBy(x, s[1..], key);
      KeyBoundByMultiset(key(s[0]), s[1..], x, t, key);
      ConsSortedBy(s[0], t, key);
      [s[0]] + t
  }

  /** A stable `sort_values(by=key)`: rows ascending by key, a permutation of
      the input. */
  function SortBy<T>(xs: seq<T>, key: T -> int): (r: seq<T>)
    ensures SortedBy(r, key) && multiset(r) == multiset(xs)
  {
    if xs == [] then []
    else
      assert xs == [xs[0]] + xs[1..];
      InsertBy(xs[0], SortBy(xs[1..], key), key)
  }

  /** Sorting rows whose keys already ascend strictly leaves them in place. */
  lemma {:induction false} SortAscendingIsIdentity<T>(xs: seq<T>, key: T -> int)
    requires forall i, j :: 0 <= i < j < |xs| ==> key(xs[i]) < key(xs[j])
    ensures SortBy(xs, key) == xs
  {
    if xs != [] {
      SortAscendingIsIdentity(xs[1..], key);
      assert xs == [xs[0]] + xs[1..];
    }
  }

  // ----- ffill / bfill -----

  /** `ffill()` on one column: a missing value takes the nearest present
      value above it. */
  function FFill(c: seq<Option<real>>): (r: seq<Option<real>>)
    ensures |r| == |c|
    ensures forall t :: 0 <= t < |c| && c[t].Some? ==> r[t] == c[t]
    ensures forall t :: 0 < t < |c| && c[t].None? ==> r[t] == r[t - 1]
    ensures |c| > 0 && c[0].None? ==> r[0].None?
    decreases |c|
  {
    if c == [] then []
    else
      var n := |c|;
      var p := FFill(c[..n - 1]);
      assert forall t :: 0 <= t < n - 1 ==> c[..n - 1][t] == c[t];
      p + [if c[n - 1].Some? then c[n - 1] else if p == [] then None else p[n - 2]]
  }

  /** ffill gives position t a value exactly when some value lies at or
      above it. */
  lemma {:induction false} FFillPresent(c: seq<Option<real>>, t: nat)
    requires t < |c|
    ensures FFill(c)[t].Some? <==> exists s :: 0 <= s <= t && c[s].Some?
  {
    if c[t].None? && t > 0 {
      FFillPresent(c, t - 1);
      assert (exists s :: 0 <= s <= t && c[s].Some?) <==> (exists s :: 0 <= s <= t - 1 && c[s].Some?);
    }
  }

  /** `bfill()` on one column: a missing value takes the nearest present
      value below it. */
  function BFill(c: seq<Option<real>>): (r: seq<Option<real>>)
    ensures |r| == |c|
    ensures forall t :: 0 <= t < |c| && c[t].Some? ==> r[t] == c[t]
    ensures forall t :: 0 <= t < |c| - 1 && c[t].None? ==> r[t] == r[t + 1]
    ensures |c| > 0 && c[|c| - 1].None? ==> r[|c| - 1].None?
  {
    if c == [] then []
    else
      var p := BFill(c[1..]);
      assert forall t :: 1 <= t < |c| ==> c[1..][t - 1] == c[t];
      [if c[0].Some? then c[0] else if p == [] then None else p[0]] + p
  }

  /** bfill fills position t when some value lies at or below it. */
  lemma {:induction false} BFillFills(c: seq<Option<real>>, t: nat, s: nat)
    requires t <= s < |c| && c[s].Some?
    ensures BFill(c)[t].Some?
    decreases s - t
  {
    if c[t].None? {
      BFillFills(c, t + 1, s);
    }
  }

  /** bfill leaves position t empty when nothing lies at or below it. */
  lemma {:induction false} BFillKeepsGap(c: seq<Option<real>>, t: nat)
    requires t < |c| && forall s :: t <= s < |c| ==> c[s].None?
    ensures BFill(c)[t].None?
    decreases |c| - t
  {
    if t < |c| - 1 {
      BFillKeepsGap(c, t + 1);
    }
  }

  /** After ffill then bfill, a column with at least one value has no gap. */
  lemma FillLeavesNoGap(c: seq<Option<real>>)
    requires exists s :: 0 <= s < |c| && c[s].Some?
    ensures forall t :: 0 <= t < |c| ==> BFill(FFill(c))[t].Some?
  {
    var f := FFill(c);
    var n := |c|;
    var s0 :| 0 <= s0 < n && c[s0].Some?;
    FFillPresent(c, n - 1);
    forall t | 0 <= t < n ensures BFill(f)[t].Some? {
      BFillFills(f, t, n - 1);
    }
  }

  /** A column with no value stays empty after ffill then bfill. */
  lemma FillKeepsEmptyColumn(c: seq<Option<real>>)
    requires forall s :: 0 <= s < |c| ==> c[s].None?
    ensures forall t :: 0 <= t < |c| ==> BFill(FFill(c))[t].None?
  {
    forall t | 0 <= t < |c| ensures BFill(FFill(c))[t].None? {
      forall s | t <= s < |c| ensures FFill(c)[s].None? {
        FFillPresent(c, s);
      }
      BFillKeepsGap(FFill(c), t);
    }
  }
}
