/** Optional values and success-or-error results shared by the store model. */
module Wrappers {

  /** A nullable value: SQL NULL, or a JavaScript null/undefined. */
  datatype Option<+T> = None | Some(value: T) {

    /** The value, or `default` when there is none (JavaScript's `??`). */
    function GetOr(default: T): T
    {
      match this
      case Some(v) => v
      case None => default
    }
  }

  /** The outcome of a procedure that may reject its input. */
  datatype Result<+T, +E> = Ok(value: T) | Err(error: E)
}
