/** Failure-carrying values used by the model in place of Python's
    dictionary misses and raised exceptions. */
module Results {

  /** A value that may be absent, as `dict.get` without a default returns. */
  datatype Option<+T> = None | Some(value: T) {

    /** The carried value, or `default` when there is none. */
    function GetOr(default: T): T {
      match this
      case Some(v) => v
      case None => default
    }
  }

  /** The outcome of an operation that either completes with a value or
      stops with an error, as a Python exception stops a run. */
  datatype Result<+T, +E> = Ok(value: T) | Err(error: E)
}
