/** Optional values and error-or-value results, used wherever the program
    returns `None` or raises an exception. */
module Wrappers {

  datatype Option<T> = None | Some(value: T)
  {
    /** The value, or `default` for `None` (Python's `x if x is not None else d`). */
    function GetOr(default: T): T
    {
      match this
      case None => default
      case Some(v) => v
    }
  }

  /** A computation that either yields a value or fails with an error message
      (the program raises `ValueError` in that case). */
  datatype Result<T> = Ok(value: T) | Err(error: string)
}
