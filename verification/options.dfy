/** Optional values and error-carrying results, shared by every module of the model. */
module Options {

  /** A value that may be absent: JavaScript's `null`/`undefined`, a missing storage key. */
  datatype Option<+T> = None | Some(value: T) {
    function GetOr(default: T): T {
      match this
      case Some(v) => v
      case None => default
    }
  }

  /** The outcome of an operation that either produces a value or raises. */
  datatype Result<+T, +E> = Ok(value: T) | Err(error: E)
}
