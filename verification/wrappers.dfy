/** Option and Result, shared by the normaliser's modules. */
module Wrappers {

  /** A value that may be absent: the model of JavaScript's null/undefined. */
  datatype Option<+T> = None | Some(value: T) {

    /** Returns the wrapped value, or `default` when there is none. */
    function GetOr(default: T): T {
      match this
      case Some(v) => v
      case None => default
    }
  }

  /** The outcome of a step that can throw: a value, or the thrown error. */
  datatype Result<+R, +E> = Success(value: R) | Failure(error: E)
}
