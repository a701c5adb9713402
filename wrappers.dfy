/** Optional values, the Python exceptions the engine distinguishes, and
    results that either hold a value or carry a raised exception. */
module Wrappers {

  datatype Option<+T> = None | Some(value: T) {
    /** `dict.get(key, default)`: the value if present, else the default. */
    function GetOr(default: T): T {
      match this
      case Some(v) => v
      case None => default
    }
  }

  /** The exception classes whose handling differs somewhere in the engine;
      `message` is what `str(e)` yields. */
  datatype Exception =
    | ValueError(message: string)
    | TypeError(message: string)
    | OverflowError(message: string)

  /** A computation that returns a value or raises. */
  datatype Result<+T> = Ok(value: T) | Raise(error: Exception)
}
