/** Option and Result: the C# nullable values and the error returns of the model. */
module Wrappers {

  /** A C# nullable value: `None` stands for `null`. */
  datatype Option<+T> = None | Some(value: T) {

    /** The `??` operator of C#. */
    function GetOr(default: T): T {
      match this
      case Some(v) => v
      case None => default
    }
  }

  /** The outcome of an operation that can fail with an error tag. */
  datatype Result<+R, +E> = Ok(value: R) | Err(error: E)
}
