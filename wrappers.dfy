/** Nullable cells of a table. */
module Wrappers {

  /** A table cell that may be null. */
  datatype Option<+T> = None | Some(value: T) {

    /** The value of a non-null cell, or `default` for a null one. */
    function GetOr(default: T): T {
      match this
      case Some(v) => v
      case None => default
    }
  }
}
