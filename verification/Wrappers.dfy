/** The optional values and error returns shared by every component. */
module Wrappers {

  datatype Option<+T> = None | Some(value: T)

  /** A raised error is a `Failure`; the state a failing call leaves is stated beside it. */
  datatype Result<+T, +E> = Success(value: T) | Failure(error: E)
}
