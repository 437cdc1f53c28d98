/** Failure-carrying datatypes shared by the whole model. */
module Wrappers {

  /** A value that may be absent; `None` also stands for a pandas NaN cell. */
  datatype Option<+T> = None | Some(value: T) {

    /** The value, or `default` when absent (pandas `fillna(default)` on one cell). */
    function GetOr(default: T): T {
      match this
      case Some(v) => v
      case None => default
    }
  }

  /** The outcome of an operation that may raise. */
  datatype Result<+T, +E> = Success(value: T) | Failure(error: E)
}
