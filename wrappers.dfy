/** The nullable column / optional value idiom shared by the other modules. */
module Wrappers {

  datatype Option<+T> = None | Some(value: T) {

    /** The value, or `default` for None (SQL NULL, JavaScript undefined). */
    function GetOr(default: T): T {
      match this
      case Some(v) => v
      case None => default
    }
  }
}
