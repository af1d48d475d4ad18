/** Option, Result and Outcome: the failure-carrying values the model returns
    where the server or its smoke client returns "undefined", throws, or fails. */
module Wrappers {

  datatype Option<+T> = None | Some(value: T) {
    /** `v || d` for a value whose only falsy form is absence. */
    function GetOr(default: T): T {
      match this
      case Some(v) => v
      case None => default
    }
  }

  datatype Result<+R, +E> = Success(value: R) | Failure(error: E)

  /** Pass/Fail of a check that either returns normally or throws. */
  datatype Outcome<+E> = Pass | Fail(error: E)
}
