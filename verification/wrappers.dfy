/** Failure-compatible wrappers used across the model: `Option` for Python's
    `None`-or-value and `Result` for a raised exception versus a return value. */
module Wrappers {

  datatype Option<+T> = None | Some(value: T) {

    /** The value held, or `default` when there is none (Python's `x or default`
        for values that are never falsy). */
    function GetOr(default: T): T {
      match this
      case Some(v) => v
      case None => default
    }
  }

  datatype Result<+T, +E> = Ok(value: T) | Err(error: E)

  /** The values of the present entries, in order: a loop that skips `None`. */
  function Somes<T>(xs: seq<Option<T>>): (r: seq<T>)
    ensures |r| <= |xs|
    ensures forall i :: 0 <= i < |r| ==> exists j :: 0 <= j < |xs| && xs[j] == Some(r[i])
    decreases |xs|
  {
    if |xs| == 0 then []
    else
      var rest := Somes(xs[1..]);
      assert forall j :: 1 <= j < |xs| ==> xs[j] == xs[1..][j - 1];
      match xs[0]
      case None => rest
      case Some(v) => [v] + rest
  }

  /** No present entry is skipped. */
  lemma {:induction false} SomesComplete<T>(xs: seq<Option<T>>, j: nat)
    requires j < |xs| && xs[j].Some?
    ensures xs[j].value in Somes(xs)
    decreases |xs|
  {
    if j > 0 {
      SomesComplete(xs[1..], j - 1);
      assert xs[1..][j - 1] == xs[j];
    }
  }
}
