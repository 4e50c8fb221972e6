/** Option for missing values (NaN, NaT, None) and Outcome for operations that
    raise in the source: Err carries the exception's message. */
module Wrappers {

  datatype Option<+T> = None | Some(value: T)

  datatype Outcome<+T> = Ok(value: T) | Err(msg: string)

  /** Number of present entries. */
  function CountSome<T>(s: seq<Option<T>>): (n: nat)
    ensures n <= |s|
    ensures n == 0 <==> forall i :: 0 <= i < |s| ==> s[i].None?
  {
    if s == [] then 0
    else (if s[0].Some? then 1 else 0) + CountSome(s[1..])
  }

  /** The present entries, in order (pandas `dropna` on one column). */
  function Present<T>(s: seq<Option<T>>): (r: seq<T>)
    ensures |r| == CountSome(s)
  {
    if s == [] then []
    else (if s[0].Some? then [s[0].value] else []) + Present(s[1..])
  }

  /** The present entries are exactly the values of the Some entries. */
  lemma {:induction false} PresentElements<T>(s: seq<Option<T>>)
    ensures forall i :: 0 <= i < |Present(s)| ==> Some(Present(s)[i]) in s
    ensures forall i :: 0 <= i < |s| && s[i].Some? ==> s[i].value in Present(s)
  {
    if s != [] {
      PresentElements(s[1..]);
      assert s == [s[0]] + s[1..];
      var r, t := Present(s), Present(s[1..]);
      forall i | 0 <= i < |s| && s[i].Some? ensures s[i].value in r {
        if i > 0 {
          assert s[1..][i - 1] == s[i];
        }
      }
    }
  }
}
