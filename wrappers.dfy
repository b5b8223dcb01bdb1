/** Optional values and results with an error, shared by every module of the model. */
module Wrappers {

  /** A value that may be absent: JavaScript's `undefined` / `null`, or an omitted key. */
  datatype Option<+T> = None | Some(value: T) {
    /** The value, or `default` when absent (JavaScript's `value ?? default`). */
    function GetOr(default: T): T {
      match this
      case Some(v) => v
      case None => default
    }
  }

  /** The outcome of a call that can throw: `Ok` carries the value, `Err` the thrown error. */
  datatype Result<+R, +E> = Ok(value: R) | Err(error: E)

  /** The unit value, for calls that complete without a result (`Promise<void>`). */
  datatype Unit = Unit
}
