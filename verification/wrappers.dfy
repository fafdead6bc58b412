/** Failure-compatible wrappers shared by every module of the model.
    `Option` stands for Python's `None` / a missing dictionary key and for
    an optional JSON field; `Result` stands for a call that either returns
    a value or raises (Python) / rejects (TypeScript). */
module Wrappers {

  datatype Option<+T> = None | Some(value: T) {

    /** The value, or `default` when there is none (Python's `d.get(k, default)`). */
    function GetOr(default: T): T {
      match this
      case Some(v) => v
      case None => default
    }
  }

  datatype Result<+R, +E> = Success(value: R) | Failure(error: E)

  /** The Python exceptions the core can raise. */
  datatype PyError = ValueError | IndexError
}
