/** Optional values, for the places where the app either produces something or does nothing. */
module Wrappers {

  datatype Option<+T> = None | Some(value: T) {

    /** The value held by Some, or the given default for None. */
    function GetOr(default: T): T {
      match this
      case Some(v) => v
      case None => default
    }
  }
}
