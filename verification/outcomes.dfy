/** Failure-carrying wrappers shared by the other modules. */
module Outcomes {

  /** A value that may be absent: Python's `None`, a missing dictionary key,
      a missing JSON field. */
  datatype Option<+T> = None | Some(value: T)

  /** The outcome of an operation that can fail with a reason. */
  datatype Result<+T, +E> = Success(value: T) | Failure(error: E)
}
