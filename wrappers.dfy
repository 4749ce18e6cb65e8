/** Failure-compatible result types shared by every module of the model. */
module Wrappers {

  datatype Option<+T> = None | Some(value: T)

  /** The Python exceptions the modelled code can raise on some input. */
  datatype PyError =
    | ZeroDivisionError
    | IndexError
    | KeyError
    | ValueError
    | TypeError
    | AttributeError
    | UnboundLocalError
    | OverflowError
    | StopIteration

  datatype Result<+T> = Ok(value: T) | Err(error: PyError) {
    predicate IsFailure() {
      Err?
    }

    function PropagateFailure<U>(): Result<U>
      requires Err?
    {
      Err(error)
    }

    function Extract(): T
      requires Ok?
    {
      value
    }
  }
}
