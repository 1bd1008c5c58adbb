/** Failure-carrying values used throughout the model: `Option` stands for a
    JavaScript value that may be `undefined` (or an operation that may throw
    without a payload of interest), `Result` for a computation that either
    yields a value or throws. */
module Wrappers {

  datatype Option<+T> = None | Some(value: T) {

    /** The value, or `default` when there is none. */
    function GetOr(default: T): T
    {
      match this
      case Some(v) => v
      case None => default
    }
  }

  datatype Result<+R, +E> = Success(value: R) | Failure(error: E) {

    /** Forgets the error, keeping only whether a value was produced. */
    function ToOption(): Option<R>
    {
      match this
      case Success(v) => Some(v)
      case Failure(_) => None
    }
  }
}
