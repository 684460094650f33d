/** Absence and failure, as the modelled code returns them. */
module Wrappers {
  datatype Option<+T> = None | Some(value: T)

  /** A success value, or the error a thrown exception or an `Err` carries. */
  datatype Result<+T, +E> = Ok(value: T) | Err(error: E) {
    predicate IsFailure() {
      Err?
    }

    function PropagateFailure<U>(): Result<U, E>
      requires Err?
    {
      Err(error)
    }

    function Extract(): T
      requires Ok?
    {
      value
    }
  }
}
