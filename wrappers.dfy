/** Option and result types shared by every module of the model. */
module Wrappers {

  datatype Option<+T> = None | Some(value: T)

  /** A validation step that either yields a cleaned value or raises an error. */
  datatype Result<+R, +E> = Success(value: R) | Failure(error: E) {
    function ToOption(): Option<R>
    {
      match this
      case Success(v) => Some(v)
      case Failure(_) => None
    }
  }

  /** A validation step that only passes or raises an error. */
  datatype Outcome<+E> = Pass | Fail(error: E)
}
