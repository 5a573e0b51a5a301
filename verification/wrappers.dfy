/** Optional values: the model's reading of JavaScript's `null`/`undefined`. */
module Wrappers {

  /** `None` stands for a missing (`null` or `undefined`) value. */
  datatype Option<+T> = None | Some(value: T) {

    /** The carried value, or `default` when there is none (JavaScript's `??`). */
    function GetOr(default: T): T {
      match this
      case Some(v) => v
      case None => default
    }
  }
}
