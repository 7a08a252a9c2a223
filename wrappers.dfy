/** Optional values: a JavaScript `undefined`, `null` or `NaN` where the
    components use one, and "the callback was not called" for handlers that
    hand a fresh array to a parent's `onChange`. */
module Wrappers {

  datatype Option<+T> = None | Some(value: T) {

    /** The wrapped value, or `default` when there is none (JavaScript's `x ?? d`). */
    function GetOr(default: T): T {
      match this
      case Some(v) => v
      case None => default
    }
  }
}
