/** The optional-value datatype shared by the modules of this model. */
module Wrappers {

  /** A value that may be absent; stands in for TypeScript's `T | null`
      and for an optional argument left `undefined`. */
  datatype Option<+T> = None | Some(value: T) {

    /** The wrapped value, or `default` when there is none. */
    function GetOr(default: T): T {
      match this
      case Some(v) => v
      case None => default
    }
  }
}
