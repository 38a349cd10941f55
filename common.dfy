/** Option and Result values shared by the modules of the diagram model. */
module Common {

  /** A value that may be absent: JavaScript's `undefined`. */
  datatype Option<+T> = None | Some(value: T) {
    function GetOr(default: T): T {
      match this
      case Some(v) => v
      case None => default
    }
  }

  /** The outcome of an operation that throws on bad input. */
  datatype Result<+R, +E> = Success(value: R) | Failure(error: E)
}
