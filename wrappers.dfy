/** Optional values: a JavaScript `undefined`/`null`, a missing field or a
    `NaN` from `Number(...)` is `None`. */
module Wrappers {

  datatype Option<+T> = None | Some(value: T) {

    /** The value, or `default` when absent. */
    function GetOr(default: T): T {
      match this
      case Some(v) => v
      case None => default
    }
  }
}
