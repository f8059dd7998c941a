/** Failure-compatible wrappers shared by the model: `Option` stands for a
    JavaScript value that may be `undefined`, `Result` for an operation that
    may throw. */
module Wrappers {

  datatype Option<+T> = None | Some(value: T) {

    /** The wrapped value, or `default` when there is none. */
    function GetOr(default: T): T {
      if Some? then value else default
    }
  }

  datatype Result<+T, +E> = Success(value: T) | Failure(error: E)
}
