/** Failure-carrying datatypes shared by every module of the model. */
module Wrappers {

  /** Python's `Optional[T]`: `None` or a present value. */
  datatype Option<+T> = None | Some(value: T) {
    function GetOr(default: T): T {
      match this
      case Some(v) => v
      case None => default
    }
  }

  /** A computation that either returns a value or raises an exception
      carrying a message. */
  datatype Result<+T> = Ok(value: T) | Err(error: string) {
    predicate IsFailure() {
      Err?
    }

    function PropagateFailure<U>(): Result<U>
      requires Err?
    {
      Err(error)
    }

    function Extract(): T
      requires Ok?
    {
      value
    }
  }
}
