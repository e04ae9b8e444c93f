/** The optional-value wrapper used across the model. */
module Wrappers {

  /** A value that may be absent: a TypedDict key that is not set, or a suggestion that is not shown. */
  datatype Option<+T> = None | Some(value: T) {

    /** The wrapped value, or `default` when absent. */
    function GetOr(default: T): T {
      match this
      case Some(v) => v
      case None => default
    }
  }
}
