/** Failure-carrying values used in place of the source's exceptions and `None`s. */
module Wrappers {

  datatype Option<+T> = None | Some(value: T) {
    function GetOr(default: T): T {
      match this
      case Some(v) => v
      case None => default
    }
  }

  /** `Failure` carries the text of the exception the source raises. */
  datatype Result<+T> = Success(value: T) | Failure(error: string)
}
