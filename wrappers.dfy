// Option and Result: Python's `None` and raised exceptions, as values.

module Wrappers {

  datatype Option<T> = None | Some(value: T) {
    function GetOr(default: T): T {
      match this
      case None => default
      case Some(v) => v
    }
  }

  datatype Result<T, E> = Success(value: T) | Failure(error: E)
}
