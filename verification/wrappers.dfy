/** The optional-value datatype used wherever the system has a nullable or
    absent field (`null`, `undefined`, a missing JSON key). */
module Wrappers {

  datatype Option<+T> = None | Some(value: T) {

    /** Returns the carried value, or `default` when there is none. */
    function GetOr(default: T): T {
      match this
      case Some(v) => v
      case None => default
    }
  }
}
