/**
  Failure-compatible wrappers shared by both halves of the model.
  - Option<T> stands for a Java reference that may be null.
  - Result<T, E> stands for a computation that either returns a value or
    throws; `:-` propagates the failure the way an exception unwinds.
 */
module Results {

  datatype Option<+T> = None | Some(value: T)

  datatype Result<+T, +E> = Ok(value: T) | Fail(error: E) {

    predicate IsFailure() {
      Fail?
    }

    function PropagateFailure<U>(): Result<U, E>
      requires Fail?
    {
      Fail(error)
    }

    function Extract(): T
      requires Ok?
    {
      value
    }
  }
}
