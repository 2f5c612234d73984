/** The optional value used wherever the Java code accepts or returns `null`. */
module Wrappers {

  datatype Option<+T> = None | Some(value: T) {

    /** The value, or `default` when absent (`Objects.requireNonNullElse`). */
    function GetOr(default: T): T
    {
      match this
      case Some(v) => v
      case None => default
    }
  }
}
