/** Option and Result datatypes, and Min, shared by the other modules. */
module Wrappers {

  /** A value that may be missing (a fetch that raised, for one). */
  datatype Option<+T> = None | Some(value: T)

  /** The outcome of a step that can fail with an error of type E. */
  datatype Result<+T, +E> = Success(value: T) | Failure(error: E)

  function Min(a: int, b: int): (m: int)
    ensures m <= a && m <= b
    ensures m == a || m == b
  {
    if a <= b then a else b
  }
}
