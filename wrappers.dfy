/** JavaScript's `undefined` / absent values, as an option type. */
module Wrappers {

  /** `None` stands for a value that is `undefined` or `null` in the source. */
  datatype Option<+T> = None | Some(value: T) {

    /** The value, or `default` when absent (JavaScript's `??`). */
    function GetOr(default: T): T {
      match this
      case Some(v) => v
      case None => default
    }
  }
}
