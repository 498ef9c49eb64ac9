/** The Option datatype used throughout the model for "maybe absent" values
    (a missing key, an element that does not resolve, a JavaScript `null`). */
module Wrappers {

  datatype Option<+T> = None | Some(value: T) {

    /** The wrapped value, or `default` when there is none (JavaScript's `x || default`
        for values whose only falsy form is absence). */
    function GetOr(default: T): T {
      match this
      case Some(v) => v
      case None => default
    }
  }
}
