/** Optional values and results with an error, the two shapes through which the
    decoder reports "nothing here" (Swift's `nil`) and a thrown error. */
module Wrappers {

  datatype Option<+T> = None | Some(value: T) {
    /** `x ?? d` in Swift. */
    function GetOr(default: T): T {
      match this
      case Some(v) => v
      case None => default
    }
  }

  datatype Result<+T, +E> = Ok(value: T) | Err(error: E)
}
