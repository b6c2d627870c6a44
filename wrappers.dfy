/** The optional value used throughout the model: `None` stands for JavaScript's
    `undefined`/`null` and, for dates, for an Invalid Date. */
module Wrappers {

  datatype Option<+T> = None | Some(value: T) {

    /** The value, or `default` when there is none (JavaScript's `x ?? default`). */
    function GetOr(default: T): T {
      match this
      case Some(v) => v
      case None => default
    }
  }
}
