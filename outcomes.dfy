/** Optional values and success-or-error values shared by the other modules. */
module Outcomes {

  /** A value that may be absent (Python's `None`, a loader or service that raised). */
  datatype Option<+T> = None | Some(value: T)

  /** The outcome of an operation that either produces a value or raises an error. */
  datatype Result<+T, +E> = Success(value: T) | Failure(error: E)
}
