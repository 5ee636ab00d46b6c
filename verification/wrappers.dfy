/** Failure-carrying result types used where the Python code raises exceptions. */
module Wrappers {

  datatype Option<T> = None | Some(value: T)

  /** Either a value or the exception the source would raise instead. */
  datatype Result<T, E> = Ok(value: T) | Err(error: E) {

    /** The value of an `Ok`, or `default` when the operation failed. */
    function GetOr(default: T): T {
      match this
      case Ok(v) => v
      case Err(_) => default
    }
  }

  /** The outcome of an operation that returns nothing but may raise. */
  datatype Outcome<E> = Pass | Fail(error: E)
}
