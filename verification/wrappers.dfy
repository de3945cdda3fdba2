/** Option and Result values, for Python's `None` and for error returns, and one fact about sequences. */
module Wrappers {

  datatype Option<+T> = None | Some(value: T)

  datatype Result<+R, +E> = Success(value: R) | Failure(error: E)

  /** Concatenation regroups freely; stated once so that proofs can use it without unfolding their own definitions. */
  lemma AppendAssoc<T>(x: seq<T>, y: seq<T>, z: seq<T>)
    ensures x + (y + z) == (x + y) + z
  {
  }
}
