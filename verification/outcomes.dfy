/**
  Failure-compatible wrappers used by the model: `Option` stands for a
  dictionary key that may be absent, `Result` for a computation that either
  produces a value or raises an exception.
 */
module Outcomes {

  /** A value that may be absent (a missing key in a parsed JSON object). */
  datatype Option<+T> = None | Some(value: T) {

    /** The value if present, otherwise `default` (Python's `dict.get(key, default)`). */
    function GetOr(default: T): T {
      match this
      case Some(v) => v
      case None => default
    }
  }

  /** Either a value or the error that a Python exception would carry. */
  datatype Result<+T, +E> = Ok(value: T) | Err(error: E) {

    predicate IsFailure() {
      Err?
    }

    function PropagateFailure<U>(): Result<U, E>
      requires Err?
    {
      Err(error)
    }

    function Extract(): T
      requires Ok?
    {
      value
    }
  }
}
