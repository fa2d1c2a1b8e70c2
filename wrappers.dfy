/** Kotlin nullability and the outcome of calls into code outside the model. */
module Wrappers {

  /** A nullable Kotlin value: `None` stands for `null`. */
  datatype Option<+T> = None | Some(value: T) {

    /** The elvis operator `this ?: default`. */
    function GetOr(default: T): (r: T)
      ensures Some? ==> r == value
      ensures None? ==> r == default
    {
      match this
      case Some(v) => v
      case None => default
    }
  }

  /** A call that returns a value or throws an exception whose message may be null. */
  datatype Call<+T> = Returned(value: T) | Threw(message: Option<string>)

  /** A call that returns `Unit` or throws an exception whose message may be null. */
  datatype Io = Completed | Failed(message: Option<string>)
}
