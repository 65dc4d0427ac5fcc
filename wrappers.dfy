/** Optional values: a missing date, a NaN day count, a lookup that found nothing. */
module Wrappers {

  datatype Option<+T> = None | Some(value: T) {

    /** The value, or the given default when it is missing (pandas' fillna). */
    function GetOr(default: T): T {
      match this
      case Some(v) => v
      case None => default
    }
  }
}
