/** Option and tagged-error results shared by the dashboard model. */
module Wrappers {

  /** A value that may be absent; pandas' NaN / NA becomes None. */
  datatype Option<+T> = None | Some(value: T) {
    function GetOr(default: T): T {
      match this
      case Some(v) => v
      case None => default
    }
  }

  /** The loaders' `(data, None)` / `(None, reason)` pairs. */
  datatype Result<+T> = Ok(value: T) | Err(reason: string)
}
