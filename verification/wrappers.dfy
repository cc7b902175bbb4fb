/** Failure-carrying result types shared by the whole model. */
module Wrappers {

  /** An optional value: Go's nil pointer or nil error is `None`. */
  datatype Option<+T> = None | Some(value: T)

  /** A value or an error, for the Go `(T, error)` return pairs. */
  datatype Result<+T, +E> = Success(value: T) | Failure(error: E)
}
