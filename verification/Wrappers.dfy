/** The optional value the other modules share. */
module Wrappers {

  /** A value that may be absent, as Python's None or an SQL NULL. */
  datatype Option<+T> = None | Some(value: T) {
    /** The value, or the given default when there is none. */
    function GetOr(default: T): T {
      match this
      case Some(v) => v
      case None => default
    }
  }
}
