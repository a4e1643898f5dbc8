/** Failure-carrying result types shared by the whole model. */
module Wrappers {

  /** An optional value: Rust's `Option<T>`. */
  datatype Option<+T> = None | Some(value: T)

  /** A value or an error: Rust's `Result<T, E>`. */
  datatype Result<+T, +E> = Success(value: T) | Failure(error: E) {

    /** Forgets the error, keeping only whether a value is present. */
    function ToOption(): (o: Option<T>)
      ensures o.Some? <==> Success?
      ensures Success? ==> o.value == value
    {
      match this
      case Success(v) => Some(v)
      case Failure(_) => None
    }
  }
}
