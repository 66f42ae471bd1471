/** Optional values and the outcome of a Python call that may raise. */
module Outcomes {

  datatype Option<+T> = None | Some(value: T) {
    function GetOr(default: T): T {
      match this
      case Some(v) => v
      case None => default
    }
  }

  /** The Python exceptions the modelled code can raise or catch. */
  datatype PyError = ValueError | IndexError | KeyError | FeedError

  /** A call that either returns a value or raises. */
  datatype Result<+T> = Returned(value: T) | Raised(error: PyError)
}
