/** The optional value used wherever the source has `undefined`, `null` or a failed match. */
module Wrappers {

  datatype Option<+T> = None | Some(value: T) {

    /** The wrapped value, or `default` when there is none: a present value wins, as in `??` or a spread. */
    function GetOr(default: T): T {
      match this
      case Some(v) => v
      case None => default
    }
  }
}
