/** Option and Result types used for the source's "nothing" and "raised" outcomes. */
module Wrappers {

  datatype Option<+T> = None | Some(value: T)

  /** Err stands for a Python exception that the modelled code does not catch. */
  datatype Result<+T> = Ok(value: T) | Err {
    predicate IsFailure() { Err? }

    function PropagateFailure<U>(): Result<U>
      requires Err?
    {
      Err
    }

    function Extract(): T
      requires Ok?
    {
      value
    }
  }
}
