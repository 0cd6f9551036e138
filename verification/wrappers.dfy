/** Optional values, used wherever the dashboard may find nothing: an empty
    storage slot, a missing JSON field, a failed estimate, a rejected parse. */
module Wrappers {

  datatype Option<+T> = None | Some(value: T) {

    /** The encapsulated value, or `default` when there is none. */
    function GetOr(default: T): T {
      match this
      case Some(v) => v
      case None => default
    }
  }
}
