/** Failure-compatible wrappers used across the model: `Option` for a value that
    may be absent (Python's `None`) and `Result` for an operation whose Python
    original can raise. */
module Wrappers {

  datatype Option<+T> = None | Some(value: T) {

    /** The wrapped value, or `default` when there is none. */
    function GetOr(default: T): T {
      match this
      case Some(v) => v
      case None => default
    }
  }

  datatype Result<+T, +E> = Success(value: T) | Failure(error: E) {

    predicate IsFailure() {
      Failure?
    }
  }

  /** The exceptions the modelled Python code can raise on its own. */
  datatype PyError =
    | ZeroDivision                 // `x / 0`
    | UnpackMismatch(key: string)  // `a, b = key.split('→')` with a part count other than 2
    | UnknownMode(mode: string)    // `raise ValueError(f"Unknown similarity_mode: ...")`
    | MissingKey(key: string)      // `d[key]` on a dict without that key
}
