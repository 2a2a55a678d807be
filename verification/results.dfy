/** Outcome types shared by every module of the model: an optional value and a
    value-or-error result that supports Dafny's `:-` propagation. */
module Results {

  /** A value that may be absent (Python's `None`, a missing cell). */
  datatype Option<+T> = None | Some(value: T)

  /** The outcome of an operation that either produces a value or raises. */
  datatype Result<+T, +E> = Ok(value: T) | Err(error: E) {

    predicate IsFailure() {
      Err?
    }

    function PropagateFailure<U>(): Result<U, E>
      requires Err?
    {
      Err(error)
    }

    function Extract(): T
      requires Ok?
    {
      value
    }
  }
}
