/** Failure-compatible wrappers shared by every module of the model. */
module Wrappers {

  /** An optional value: Go's nil-able pointers and "comma ok" lookups. */
  datatype Option<+T> = None | Some(value: T)

  /** A value or an error: Go's `(value, error)` return pairs. */
  datatype Result<+T, +E> = Success(value: T) | Failure(error: E)
}
