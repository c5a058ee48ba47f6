/** Failure-compatible wrappers used for the nullable native handles and the
    `(value, error)` returns of the Go binding. */
module Wrappers {

  /** A value that may be absent: a native factory that returns NULL yields `None`. */
  datatype Option<+T> = None | Some(value: T)

  /** A Go `(*T, error)` pair where exactly one side is meaningful. */
  datatype Result<+R, +E> = Success(value: R) | Failure(error: E)
}
