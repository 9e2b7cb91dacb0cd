/** The "value or undefined" results that the engine's lookups return. */
module Wrappers {

  /** `undefined`/`null` on the source side is `None` here. */
  datatype Option<+T> = None | Some(value: T) {
    function GetOr(default: T): T {
      match this
      case Some(v) => v
      case None => default
    }
  }
}
