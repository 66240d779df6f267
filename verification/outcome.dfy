/** Results of operations that either produce a value or fail with an error
    message. A JavaScript `throw new Error(m)` (or a rejected promise) is
    modelled as `Err(m)`; nothing is written when an operation fails. */
module Outcome {

  datatype Option<+T> = None | Some(value: T)

  datatype Result<+T> = Ok(value: T) | Err(error: string) {

    predicate IsFailure() {
      Err?
    }

    function PropagateFailure<U>(): Result<U>
      requires Err?
    {
      Err(error)
    }

    function Extract(): T
      requires Ok?
    {
      value
    }
  }
}
