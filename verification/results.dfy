/** Optional values and success-or-error values, used wherever the source
    returns `null`/`None` or fails with an error status. */
module Results {

  /** A value that may be missing: `null`/`undefined` in TypeScript, `None` in Python. */
  datatype Option<+T> = None | Some(value: T) {

    /** The carried value, or `default` when there is none. */
    function GetOr(default: T): T {
      match this
      case Some(v) => v
      case None => default
    }
  }

  /** The outcome of an operation that either succeeds with a value or fails with an error. */
  datatype Result<+R, +E> = Ok(value: R) | Err(error: E)
}
