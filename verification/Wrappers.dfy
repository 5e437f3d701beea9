/** The two result shapes the other modules share. */
module Wrappers {

  /** A value that may be missing: SQL NULL, JavaScript null, or no row. */
  datatype Option<+T> = None | Some(value: T) {
    function GetOr(default: T): T {
      if Some? then value else default
    }
  }

  /** A handler's answer, or the error it throws. */
  datatype Result<+T, +E> = Success(value: T) | Failure(error: E)
}
