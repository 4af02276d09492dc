/** Types shared by every module of the model. */
module Prelude {
  datatype Option<+T> = None | Some(value: T)

  /** One octet of a file, a socket or a stored value. */
  type byte = b: int | 0 <= b < 256

  type Bytes = seq<byte>

  function Min(a: int, b: int): (m: int) {
    if a < b then a else b
  }

  function Max(a: int, b: int): (m: int) {
    if a < b then b else a
  }

  /** The newest `n` elements of `s`, or all of `s` when it is shorter. */
  function Last<T>(s: seq<T>, n: nat): (t: seq<T>)
    ensures |t| == Min(|s|, n)
  {
    s[|s| - Min(|s|, n)..]
  }

  /** No element twice. */
  predicate Distinct<T(==)>(s: seq<T>) {
    forall a, b :: 0 <= a < b < |s| ==> s[a] != s[b]
  }
}
