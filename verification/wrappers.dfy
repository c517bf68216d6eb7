/** Small failure-carrying datatypes shared by every module of the model. */
module Wrappers {

  /** An optional value; stands for a Go pointer that may be nil. */
  datatype Option<+T> = None | Some(value: T)

  /** A value or an error; stands for Go's `(value, error)` return pair. */
  datatype Result<+T, +E> = Ok(value: T) | Err(error: E) {
    predicate IsFailure() {
      Err?
    }

    function PropagateFailure<U>(): Result<U, E>
      requires Err?
    {
      Err(error)
    }

    function Extract(): T
      requires Ok?
    {
      value
    }
  }

  /** Success or an error, for Go functions that return only `error`. */
  datatype Outcome<+E> = Pass | Fail(error: E)
}
