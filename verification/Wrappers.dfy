module Wrappers {

  datatype Option<+T> = None | Some(value: T)

  datatype Result<+T, +E> = Ok(value: T) | Err(error: E)

  /** The last k elements, in order. */
  function Last<T>(s: seq<T>, k: nat): (r: seq<T>)
    requires k <= |s|
    ensures |r| == k && forall i :: 0 <= i < k ==> r[i] == s[|s| - k + i]
  {
    if k == |s| then s else s[|s| - k..]
  }

  lemma FrontAndLast<T>(s: seq<T>, k: nat)
    requires k <= |s|
    ensures s[..|s| - k] + Last(s, k) == s
  {
  }

  lemma Associates<T>(a: seq<T>, b: seq<T>, c: seq<T>)
    ensures a + b + c == a + (b + c)
  {
  }
}
