/** The optional value used throughout the model: a missing environment
    variable, a lookup that finds nothing, a regular-expression search that
    does not match. */
module Wrappers {

  datatype Option<+T> = None | Some(value: T) {

    /** The value, or `default` when there is none. */
    function GetOr(default: T): T {
      match this
      case Some(v) => v
      case None => default
    }
  }
}
