/** Option and Result, the two failure-carrying shapes the model uses. */
module Wrappers {

  /** `None` stands for JavaScript's `undefined`/`null`/`NaN` where the source can produce them. */
  datatype Option<+T> = None | Some(value: T) {
    function GetOr(default: T): T {
      match this
      case Some(v) => v
      case None => default
    }
  }

  datatype Result<+T, +E> = Ok(value: T) | Err(error: E)
}
