/** Failure-carrying values shared by the writer and the reader. */
module Outcomes {

  datatype Option<+T> = None | Some(value: T) {
    function GetOr(default: T): T {
      match this
      case Some(v) => v
      case None => default
    }
  }

  /** The value of a computation that may raise. */
  datatype Result<+T, +E> = Ok(value: T) | Err(error: E)

  /** The outcome of a procedure that returns nothing (`-> None`) or raises. */
  datatype Outcome<+E> = Pass | Fail(error: E)
}
