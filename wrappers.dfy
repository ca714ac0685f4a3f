/** Small helper datatypes shared by the other modules. */
module Wrappers {

  /** A value that may be absent: a preference key that was never written,
      or a field missing from a stored workout object. */
  datatype Option<+T> = None | Some(value: T) {

    /** The stored value, or `default` when absent (SharedPreferences' getX(key, default)). */
    function GetOr(default: T): T {
      match this
      case Some(v) => v
      case None => default
    }
  }
}
