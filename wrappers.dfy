/** Wrappers: a value that may be missing, and a result that may be an error. */
module Wrappers {

  /** A value that may be absent (pandas' NaN, a header that is not there). */
  datatype Option<+T> = None | Some(value: T)

  /** The outcome of an operation that can fail with an error of type E. */
  datatype Result<+R, +E> = Success(value: R) | Failure(error: E)
}
