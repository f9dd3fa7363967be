/** Failure-carrying results shared by every stage of the pipeline.  A Python
    exception (KeyError, ValueError) or a C++ error return becomes an `Err`
    whose message names the exception. */
module Wrappers {

  datatype Option<+T> = None | Some(value: T)

  datatype Result<+T> = Ok(value: T) | Err(error: string) {
    predicate IsFailure() { Err? }

    function PropagateFailure<U>(): Result<U>
      requires Err?
    {
      Err(error)
    }

    function Extract(): T
      requires Ok?
    {
      value
    }
  }
}
