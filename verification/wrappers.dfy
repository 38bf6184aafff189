/** Failure-carrying values used throughout the model.

    The simulator is written in a language with exceptions; every operation
    that can raise is modelled as returning a `Result` whose error names the
    exception class that the original code would raise.
 */
module Wrappers {

  datatype Option<+T> = None | Some(value: T) {
    function GetOr(default: T): T {
      match this
      case Some(v) => v
      case None => default
    }
  }

  /** The exception classes that the modelled code can raise. */
  datatype PyError =
    | ValueError
    | IndexError
    | KeyError
    | NameError
    | AttributeError
    | AssertionError
    | NotImplementedError
    | CycleError
    | InvalidIPAddressError
    | TypeError

  datatype Result<+T> = Ok(value: T) | Err(error: PyError) {
    predicate IsFailure() {
      Err?
    }

    function PropagateFailure<U>(): Result<U>
      requires Err?
    {
      Err(error)
    }

    function Extract(): T
      requires Ok?
    {
      value
    }
  }
}
