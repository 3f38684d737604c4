/** The optional value used wherever the application has `T | null`, `T | undefined`
    or an optional property. */
module Wrappers {

  datatype Option<+T> = None | Some(value: T) {

    /** The `??` operator: the held value, or `default` when there is none. */
    function GetOr(default: T): (r: T) {
      match this
      case Some(v) => v
      case None => default
    }
  }
}
