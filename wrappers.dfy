/** Failure-compatible wrappers used for the source's "value or exception" returns. */
module Wrappers {

  datatype Option<+T> = None | Some(value: T)

  /** A call that either returns a value or throws a `std::runtime_error` carrying a message. */
  datatype Result<+R, +E> = Success(value: R) | Failure(error: E)
}
