/** Option, Result and Outcome: the model's stand-ins for Python's `None` and raised exceptions. */
module Wrappers {

  datatype Option<+T> = None | Some(value: T)

  /** A value, or the error an operation raised instead of returning one. */
  datatype Result<+T, +E> = Success(value: T) | Failure(error: E)

  /** Completion of an operation that returns nothing: it finished, or it raised `error`. */
  datatype Outcome<+E> = Pass | Fail(error: E)
}
