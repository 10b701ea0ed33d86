/** Failure-carrying results used across the model. */
module Wrappers {

  datatype Option<+T> = None | Some(value: T)

  /** An outcome or the error that ended the computation; `:-` propagates the error. */
  datatype Result<+T, +E> = Ok(value: T) | Err(error: E)
  {
    predicate IsFailure() { Err? }

    function PropagateFailure<U>(): Result<U, E>
      requires Err?
    {
      Err(error)
    }

    function Extract(): T
      requires Ok?
    {
      value
    }
  }
}
