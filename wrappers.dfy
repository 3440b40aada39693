/** Option and Result, for the nullable columns and the error paths of the bot. */
module Wrappers {

  datatype Option<+T> = None | Some(value: T) {
    /** The wrapped value, or `default` when there is none. */
    function GetOr(default: T): T {
      if Some? then value else default
    }
  }

  datatype Result<+T, +E> = Success(value: T) | Failure(error: E)
}
