/** Optional values and results, used where the program returns None or raises. */
module Wrappers {

  datatype Option<+T> = None | Some(value: T)

  /** The exception classes that the modelled code raises and handles. */
  datatype Exception =
    | ValueError
    | TypeError
    | KeyError
    | EOFError
    | OverflowError
    | AttributeError

  /** A computed value, or the exception that ended the computation. */
  datatype Result<+T> = Ok(value: T) | Raise(exception: Exception)
  {
    predicate IsFailure() { Raise? }

    function PropagateFailure<U>(): Result<U>
      requires Raise?
    {
      Raise(exception)
    }

    function Extract(): T
      requires Ok?
    {
      value
    }
  }
}
