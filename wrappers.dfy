/** Failure values for the Python exceptions the modelled code can raise. */
module Wrappers {

  /** The exceptions the modelled functions can raise on input they do not expect. */
  datatype Error =
    | IndexError         // pop from an empty list, or an index past the end
    | TypeError          // arithmetic on a symbol instead of a number
    | ZeroDivisionError  // a pixels-per-unit of zero

  /** A value, or the exception that was raised instead. */
  datatype Result<+T> = Ok(value: T) | Err(error: Error) {
    predicate IsFailure() { Err? }

    function PropagateFailure<U>(): Result<U>
      requires Err?
    {
      Err(error)
    }

    function Extract(): T
      requires Ok?
    {
      value
    }
  }
}
