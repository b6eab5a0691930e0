/** The optional value used wherever the source works with `null`, `undefined`
    or a `try`/`catch` that swallows a failure. */
module Wrappers {

  datatype Option<+T> = None | Some(value: T) {

    /** The wrapped value, or `default` when there is none. */
    function GetOr(default: T): T {
      match this
      case Some(v) => v
      case None => default
    }
  }
}
