/** The optional value used wherever the source has a nullable type, and the outcome of an operation that can throw. */
module Wrappers {
  datatype Option<+T> = None | Some(value: T) {
    /** The value held, or `default` when there is none (Kotlin's elvis operator `?:`). */
    function GetOr(default: T): (r: T)
      ensures Some? ==> r == value
      ensures None? ==> r == default
    {
      match this
      case Some(v) => v
      case None => default
    }
  }

  /** What an operation that either returns or throws an exception with a message ends with. */
  datatype Result<+T> = Success(value: T) | Failure(error: string)
}
