/** Failure-carrying wrappers shared by every module of the model. */
module Results {

  /** A value that may be absent (Python's `None`). */
  datatype Option<+T> = None | Some(value: T) {

    function GetOr(default: T): T {
      match this
      case Some(v) => v
      case None => default
    }
  }

  /** Either a computed value or the reason it could not be computed. */
  datatype Result<+R, +E> = Success(value: R) | Failure(error: E)
}
