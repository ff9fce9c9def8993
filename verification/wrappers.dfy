/** Optional values: the model's stand-in for Python's `None`, for a missing
    dictionary key and for a call that raised an exception. */
module Wrappers {

  datatype Option<+T> = None | Some(value: T) {

    /** The carried value, or `default` when there is none. */
    function GetOr(default: T): T {
      match this
      case Some(v) => v
      case None => default
    }
  }
}
