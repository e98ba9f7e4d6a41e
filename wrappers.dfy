/** The failure-carrying wrapper shared by the modules of this model. */
module Wrappers {

  /** A value that may be missing: `None` stands for a call that raised. */
  datatype Option<+T> = None | Some(value: T) {

    /** The wrapped value, or `default` when there is none. */
    function GetOr(default: T): T
    {
      match this
      case Some(v) => v
      case None => default
    }
  }
}
