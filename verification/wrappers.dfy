/** Failure-compatible wrappers used throughout the model: `Option` stands for a
    Java reference that may be null, `Result` for a call that may throw, and
    `Outcome` for a `void` call that may throw. */
module Wrappers {

  /** A value that may be absent (a null reference). */
  datatype Option<+T> = None | Some(value: T)

  /** The value a call returned, or the exception it threw. */
  datatype Result<+T, +E> = Success(value: T) | Failure(error: E)

  /** Whether a call without a return value completed or threw. */
  datatype Outcome<+E> = Pass | Fail(error: E)
}
