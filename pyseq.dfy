/** Python's sequence and string idioms that the pipeline's index arithmetic
    rests on: slicing with negative and out-of-range bounds, pandas `tail` and
    `shift`, and the few string tests it makes on column and file names. */
module PySeq {
  import opened Wrappers

  /** How Python normalises a slice bound on a sequence of length n: a
      negative bound counts from the end, then the bound is clamped to [0, n]. */
  function Bound(i: int, n: nat): (b: nat)
    ensures b <= n
    ensures 0 <= i <= n ==> b == i
    ensures -(n as int) <= i < 0 ==> b == n + i
  {
    if i < 0 then (if i + n < 0 then 0 else i + n)
    else if i > n then n else i
  }

  /** `s[i:j]`: empty when the normalised bounds cross. */
  function Slice<T>(s: seq<T>, i: int, j: int): (r: seq<T>)
    ensures |r| == if Bound(i, |s|) <= Bound(j, |s|) then Bound(j, |s|) - Bound(i, |s|) else 0
    ensures forall k :: 0 <= k < |r| ==> r[k] == s[Bound(i, |s|) + k]
  {
    var a, b := Bound(i, |s|), Bound(j, |s|);
    if a <= b then s[a..b] else []
  }

  /** `s[i:]` */
  function From<T>(s: seq<T>, i: int): seq<T> {
    Slice(s, i, |s|)
  }

  /** `s[:j]` */
  function Upto<T>(s: seq<T>, j: int): seq<T> {
    Slice(s, 0, j)
  }

  function Min(a: int, b: int): int {
    if a <= b then a else b
  }

  function Max(a: int, b: int): int {
    if a >= b then a else b
  }

  /** pandas `tail(k)` for k >= 0 (which is `iloc[-k:]` except that k = 0
      gives nothing): the last min(k, |s|) elements. */
  function Tail<T>(s: seq<T>, k: nat): (r: seq<T>)
    ensures |r| == Min(k, |s|)
    ensures r == s[|s| - |r|..]
  {
    if k == 0 then [] else From(s, -(k as int))
  }

  /** `iloc[-k:]` with k >= 1 is the same as `tail(k)`. */
  lemma NegativeFromIsTail<T>(s: seq<T>, k: nat)
    requires k >= 1
    ensures From(s, -(k as int)) == Tail(s, k)
  {
  }

  /** pandas `shift(k)` for k >= 0: every element moves k rows down and the
      first k rows become missing. */
  function Shift<T>(s: seq<Option<T>>, k: nat): (r: seq<Option<T>>)
    ensures |r| == |s|
    ensures forall t :: 0 <= t < |s| ==> r[t] == if t < k then None else s[t - k]
  {
    seq(|s|, t requires 0 <= t < |s| => if t < k then None else s[t - k])
  }

  /** Shifting twice is shifting by the sum. */
  lemma ShiftShift<T>(s: seq<Option<T>>, i: nat, j: nat)
    ensures Shift(Shift(s, i), j) == Shift(s, i + j)
  {
  }

  /** Shift of a fully present series, as Options. */
  function Lift<T>(s: seq<T>): (r: seq<Option<T>>)
    ensures |r| == |s| && forall t :: 0 <= t < |s| ==> r[t] == Some(s[t])
  {
    seq(|s|, t requires 0 <= t < |s| => Some(s[t]))
  }

  // ----- strings -----

  predicate StartsWith(s: string, p: string) {
    |p| <= |s| && s[..|p|] == p
  }

  predicate EndsWith(s: string, p: string) {
    |p| <= |s| && s[|s| - |p|..] == p
  }

  /** Python's `p in s` on strings. */
  predicate Contains(s: string, p: string)
    decreases |s|
  {
    StartsWith(s, p) || (|s| > 0 && Contains(s[1..], p))
  }

  /** `s.split(c)[0]`: everything before the first c (all of s when there is none). */
  function BeforeFirst(s: string, c: char): (r: string)
    ensures c !in r
    ensures StartsWith(s, r)
    ensures |r| < |s| ==> s[|r|] == c
  {
    if s == [] then []
    else if s[0] == c then []
    else [s[0]] + BeforeFirst(s[1..], c)
  }

  /** `s.replace(pat, rep)`: every non-overlapping occurrence of pat, left to
      right, replaced by rep. */
  function ReplaceAll(s: string, pat: string, rep: string): string
    requires |pat| > 0
    decreases |s|
  {
    if |s| < |pat| then s
    else if s[..|pat|] == pat then rep + ReplaceAll(s[|pat|..], pat, rep)
    else [s[0]] + ReplaceAll(s[1..], pat, rep)
  }

  /** A string without the pattern is left unchanged. */
  lemma {:induction false} ReplaceAbsent(s: string, pat: string, rep: string)
    requires |pat| > 0 && !Contains(s, pat)
    ensures ReplaceAll(s, pat, rep) == s
    decreases |s|
  {
    if |s| >= |pat| {
      ReplaceAbsent(s[1..], pat, rep);
    }
  }

  /** An occurrence of the two-character text ab. */
  predicate HasPair(s: string, a: char, b: char) {
    exists i :: 0 <= i < |s| - 1 && s[i] == a && s[i + 1] == b
  }

  lemma {:induction false} PairIsContains(s: string, a: char, b: char)
    ensures Contains(s, [a, b]) <==> HasPair(s, a, b)
    decreases |s|
  {
    if |s| > 0 {
      PairIsContains(s[1..], a, b);
      assert StartsWith(s, [a, b]) <==> |s| >= 2 && s[0] == a && s[1] == b by {
        if |s| >= 2 { assert s[..2] == [s[0], s[1]]; }
      }
      if HasPair(s, a, b) {
        var i :| 0 <= i < |s| - 1 && s[i] == a && s[i + 1] == b;
        if i > 0 {
          assert s[1..][i - 1] == a && s[1..][i] == b;
        }
      }
      if HasPair(s[1..], a, b) {
        var i :| 0 <= i < |s[1..]| - 1 && s[1..][i] == a && s[1..][i + 1] == b;
        assert s[i + 1] == a && s[i + 2] == b;
      }
    }
  }

  /** Replacing a two-character pattern ab by a non-empty text that holds no b
      and does not end in a leaves no ab behind. */
  lemma ReplaceRemoves(s: string, a: char, b: char, rep: string)
    requires a != b && b !in rep && |rep| > 0 && rep[|rep| - 1] != a
    ensures !Contains(ReplaceAll(s, [a, b], rep), [a, b])
  {
    ReplaceRemovesPair(s, a, b, rep);
    PairIsContains(ReplaceAll(s, [a, b], rep), a, b);
  }

  lemma {:induction false} ReplaceRemovesPair(s: string, a: char, b: char, rep: string)
    requires a != b && b !in rep && |rep| > 0 && rep[|rep| - 1] != a
    ensures !HasPair(ReplaceAll(s, [a, b], rep), a, b)
    decreases |s|
  {
    var r := ReplaceAll(s, [a, b], rep);
    if |s| < 2 {
      assert r == s;
    } else if s[..2] == [a, b] {
      var t := ReplaceAll(s[2..], [a, b], rep);
      ReplaceRemovesPair(s[2..], a, b, rep);
      assert r == rep + t;
      assert !HasPair(rep, a, b);
      NoPairInConcat(rep, t, a, b);
    } else {
      var t := ReplaceAll(s[1..], [a, b], rep);
      ReplaceRemovesPair(s[1..], a, b, rep);
      assert r == [s[0]] + t;
      if |t| > 0 && s[0] == a {
        assert s[1] != b;
        ReplaceHead(s[1..], a, b, rep);
      }
      NoPairInConcat([s[0]], t, a, b);
    }
  }

  /** The first character of a replacement result is never b when the input
      does not start with b. */
  lemma ReplaceHead(s: string, a: char, b: char, rep: string)
    requires b !in rep && |rep| > 0 && |s| > 0 && s[0] != b
    ensures var t := ReplaceAll(s, [a, b], rep); |t| > 0 && t[0] != b
  {
  }

  lemma NoPairInConcat(u: string, t: string, a: char, b: char)
    requires !HasPair(u, a, b) && !HasPair(t, a, b)
    requires |u| > 0 && |t| > 0 ==> !(u[|u| - 1] == a && t[0] == b)
    ensures !HasPair(u + t, a, b)
  {
    var w := u + t;
    forall i | 0 <= i < |w| - 1 ensures !(w[i] == a && w[i + 1] == b) {
      if i + 1 < |u| {
        assert w[i] == u[i] && w[i + 1] == u[i + 1];
      } else if i >= |u| {
        assert w[i] == t[i - |u|] && w[i + 1] == t[i - |u| + 1];
      }
    }
  }

  /** `str(n)` for a natural number: its decimal digits. */
  function NatStr(n: nat): (r: string)
    ensures |r| > 0
    ensures n < 10 ==> r == [Digit(n)]
  {
    if n < 10 then [Digit(n)] else NatStr(n / 10) + [Digit(n % 10)]
  }

  /** The character of a decimal digit. */
  function Digit(d: nat): (c: char)
    requires d < 10
    ensures c as int == '0' as int + d
  {
    ('0' as int + d) as char
  }

  /** A text holds every pattern placed inside it. */
  lemma {:induction false} ContainsMiddle(a: string, p: string, b: string)
    ensures Contains(a + p + b, p)
    decreases |a|
  {
    if a == [] {
      assert (a + p + b)[..|p|] == p;
    } else {
      ContainsMiddle(a[1..], p, b);
      assert (a + p + b)[1..] == a[1..] + p + b;
    }
  }

  /** A text without the pattern's first character does not hold it. */
  lemma {:induction false} NotContainsWithoutHead(s: string, p: string)
    requires |p| > 0 && p[0] !in s
    ensures !Contains(s, p)
    decreases |s|
  {
    if |s| > 0 {
      assert s[0] in s;
      NotContainsWithoutHead(s[1..], p);
    }
  }

  // ----- dicts -----

  /** `d[k] = v` on a dict held as its items in insertion order: a key that
      is already there keeps its place and takes the new value; a new key
      goes last. */
  function Assign<T>(d: seq<(string, T)>, k: string, v: T): (r: seq<(string, T)>)
    ensures |r| == if exists i :: 0 <= i < |d| && d[i].0 == k then |d| else |d| + 1
    ensures forall i :: 0 <= i < |d| ==> r[i] == if d[i].0 == k then (k, v) else d[i]
    ensures |r| > |d| ==> r[|d|] == (k, v)
  {
    if exists i :: 0 <= i < |d| && d[i].0 == k then
      seq(|d|, i requires 0 <= i < |d| => if d[i].0 == k then (k, v) else d[i])
    else d + [(k, v)]
  }

  /** The keys of a list of items are pairwise distinct, as a dict's are. */
  predicate DistinctKeys<T>(d: seq<(string, T)>) {
    forall i, j :: 0 <= i < j < |d| ==> d[i].0 != d[j].0
  }
}
