/** The optional-value datatype used wherever the pages hold a value that may be
    absent (`null`/`undefined` in the original code). */
module Wrappers {

  datatype Option<+T> = None | Some(value: T) {

    /** Returns the value encapsulated in Some, or `default` if None. */
    function GetOr(default: T): T {
      match this
      case Some(v) => v
      case None => default
    }
  }
}
