/** Option and Result values for the model's error paths: an exception the source raises
    becomes a `Failure` carrying its message, an absent value becomes `None`. */
module Results {

  datatype Option<+T> = None | Some(value: T) {
    function GetOr(default: T): T {
      match this
      case Some(v) => v
      case None => default
    }
  }

  datatype Result<+R, +E> = Success(value: R) | Failure(error: E)
}
