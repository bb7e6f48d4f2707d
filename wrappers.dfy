/** Optional values: a key that may be absent from a store. */
module Wrappers {

  datatype Option<+T> = None | Some(value: T) {

    /** The stored value, or `default` when there is none. */
    function GetOr(default: T): T {
      match this
      case Some(v) => v
      case None => default
    }
  }
}
