/** Failure-carrying results shared by the modules of this project. */
module Wrappers {

  /** A value that may be absent: C#'s null reference or a failed TryGetValue. */
  datatype Option<+T> = None | Some(value: T)

  /** The outcome of an operation that can throw in the source. */
  datatype Result<+T, +E> = Success(value: T) | Failure(error: E)
}
