/** The reductions pandas applies to a column of floats: sum, mean and median,
    with missing values skipped (`skipna=True`), over exact reals. */
module Stats {
  import opened Wrappers

  function Sum(xs: seq<real>): real {
    if xs == [] then 0.0 else xs[0] + Sum(xs[1..])
  }

  lemma {:induction false} SumAppend(a: seq<real>, b: seq<real>)
    ensures Sum(a + b) == Sum(a) + Sum(b)
  {
    if a != [] {
      assert (a + b)[0] == a[0] && (a + b)[1..] == a[1..] + b;
      SumAppend(a[1..], b);
    } else {
      assert a + b == b;
    }
  }

  function Mean(xs: seq<real>): real
    requires |xs| > 0
  {
    Sum(xs) / |xs| as real
  }

  /** Every element within [lo, hi] puts the sum within [n*lo, n*hi]. */
  lemma {:induction false} SumBounds(xs: seq<real>, lo: real, hi: real)
    requires forall i :: 0 <= i < |xs| ==> lo <= xs[i] <= hi
    ensures |xs| as real * lo <= Sum(xs) <= |xs| as real * hi
  {
    if xs != [] {
      SumBounds(xs[1..], lo, hi);
    }
  }

  /** A mean lies between the smallest and the largest value averaged. */
  lemma MeanBounds(xs: seq<real>, lo: real, hi: real)
    requires |xs| > 0
    requires forall i :: 0 <= i < |xs| ==> lo <= xs[i] <= hi
    ensures lo <= Mean(xs) <= hi
  {
    SumBounds(xs, lo, hi);
    var n := |xs| as real;
    assert n * lo <= Sum(xs) <= n * hi;
    DivBounds(Sum(xs), n, lo, hi);
  }

  lemma DivBounds(s: real, n: real, lo: real, hi: real)
    requires n > 0.0 && n * lo <= s <= n * hi
    ensures lo <= s / n <= hi
  {
    assert s / n * n == s;
  }

  /** The mean of copies of one value is that value. */
  lemma {:induction false} MeanOfConstant(xs: seq<real>, v: real)
    requires |xs| > 0 && forall i :: 0 <= i < |xs| ==> xs[i] == v
    ensures Mean(xs) == v
  {
    SumBounds(xs, v, v);
    DivBounds(Sum(xs), |xs| as real, v, v);
  }

  /** pandas `mean()` on a column: the mean of the present values, missing
      when there is none. */
  function MeanSkipNa(xs: seq<Option<real>>): Option<real> {
    var p := Present(xs);
    if p == [] then None else Some(Mean(p))
  }

  /** The mean is missing exactly when every value is. */
  lemma MeanSkipNaMissing(xs: seq<Option<real>>)
    ensures MeanSkipNa(xs).None? <==> forall i :: 0 <= i < |xs| ==> xs[i].None?
  {
  }

  /** pandas `sum()` on a column: the sum of the present values; 0 when none. */
  function SumSkipNa(xs: seq<Option<real>>): real {
    Sum(Present(xs))
  }

  /** The mean of present values lies between bounds that hold all of them. */
  lemma MeanSkipNaBounds(xs: seq<Option<real>>, lo: real, hi: real)
    requires forall i :: 0 <= i < |xs| && xs[i].Some? ==> lo <= xs[i].value <= hi
    ensures MeanSkipNa(xs).Some? ==> lo <= MeanSkipNa(xs).value <= hi
  {
    var p := Present(xs);
    PresentElements(xs);
    if p != [] {
      forall i | 0 <= i < |p| ensures lo <= p[i] <= hi {
        assert Some(p[i]) in xs;
      }
      MeanBounds(p, lo, hi);
    }
  }

  // ----- median -----

  predicate Sorted(s: seq<real>) {
    forall i, j :: 0 <= i < j < |s| ==> s[i] <= s[j]
  }

  lemma SortedTail(s: seq<real>)
    requires Sorted(s) && s != []
    ensures Sorted(s[1..]) && forall k :: 0 <= k < |s| - 1 ==> s[0] <= s[1..][k]
    ensures multiset(s) == multiset{s[0]} + multiset(s[1..])
  {
    assert s == [s[0]] + s[1..];
  }

  /** A bound on every element carries over to a permutation of them. */
  lemma BoundByMultiset(h: real, rest: seq<real>, x: real, t: seq<real>)
    requires forall k :: 0 <= k < |rest| ==> h <= rest[k]
    requires h <= x && multiset(t) == multiset(rest) + multiset{x}
    ensures forall k :: 0 <= k < |t| ==> h <= t[k]
  {
    forall k | 0 <= k < |t| ensures h <= t[k] {
      assert t[k] in multiset(t);
      if t[k] != x {
        assert t[k] in multiset(rest);
      }
    }
  }

  lemma ConsSorted(h: real, t: seq<real>)
    requires Sorted(t) && forall k :: 0 <= k < |t| ==> h <= t[k]
    ensures Sorted([h] + t)
  {
    var r := [h] + t;
    forall i, j | 0 <= i < j < |r| ensures r[i] <= r[j] {
      assert r[j] == t[j - 1];
      if i > 0 {
        assert r[i] == t[i - 1];
      }
    }
  }

  function InsertSorted(x: real, s: seq<real>): (r: seq<real>)
    requires Sorted(s)
    ensures Sorted(r) && multiset(r) == multiset(s) + multiset{x}
  {
    if s == [] || x <= s[0] then [x] + s
    else
      SortedTail(s);
      var t := InsertSorted(x, s[1..]);
      BoundByMultiset(s[0], s[1..], x, t);
      ConsSorted(s[0], t);
      [s[0]] + t
  }

  /** The values in ascending order (insertion sort). */
  function SortReals(s: seq<real>): (r: seq<real>)
    ensures Sorted(r) && multiset(r) == multiset(s)
  {
    if s == [] then []
    else
      assert s == [s[0]] + s[1..];
      InsertSorted(s[0], SortReals(s[1..]))
  }

  /** The median: the middle value of the sorted values, or the mean of the
      two middle ones for an even count. */
  function Median(xs: seq<real>): real
    requires |xs| > 0
  {
    var s := SortReals(xs);
    var n := |s|;
    if n % 2 == 1 then s[n / 2] else (s[n / 2 - 1] + s[n / 2]) / 2.0
  }

  /** The median lies between two of the values: no more than half lie below
      it and no more than half above. */
  lemma MedianBetween(xs: seq<real>)
    requires |xs| > 0
    ensures exists i, j :: 0 <= i < |xs| && 0 <= j < |xs| && xs[i] <= Median(xs) <= xs[j]
  {
    var s := SortReals(xs);
    var n := |s|;
    assert |s| == |xs| by {
      assert |multiset(s)| == |multiset(xs)|;
    }
    var lo, hi := if n % 2 == 1 then n / 2 else n / 2 - 1, n / 2;
    assert s[lo] <= Median(xs) <= s[hi];
    assert s[lo] in multiset(xs) && s[hi] in multiset(xs);
    var i :| 0 <= i < |xs| && xs[i] == s[lo];
    var j :| 0 <= j < |xs| && xs[j] == s[hi];
  }

  /** pandas `median()` on a column: skips missing values; missing when none. */
  function MedianSkipNa(xs: seq<Option<real>>): Option<real> {
    var p := Present(xs);
    if p == [] then None else Some(Median(p))
  }
}
