/** Failure-compatible wrappers used throughout the model.
    `Result` has exactly one failure, `IndexError`: the only exception the agent's
    decision code can raise is an out-of-range read of the tile grid. */
module Outcome {

  datatype Option<+T> = None | Some(value: T)

  datatype Result<+T> = Ok(value: T) | IndexError {

    predicate IsFailure() {
      IndexError?
    }

    function PropagateFailure<U>(): Result<U>
      requires IndexError?
    {
      IndexError
    }

    function Extract(): T
      requires Ok?
    {
      value
    }
  }
}
