/** The optional value used wherever the source has `null`, `undefined` or a
    failing lookup. */
module Wrappers {

  datatype Option<+T> = None | Some(value: T) {

    /** `x || d` on an optional value: the value if present, else `d` */
    function GetOr(default: T): T {
      match this
      case Some(v) => v
      case None => default
    }
  }
}
