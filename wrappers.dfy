/** Option, and the outcome of a Python computation that may raise, shared by every module. */
module Wrappers {

  datatype Option<+T> = None | Some(value: T)

  /** The Python exception classes that the modelled code can raise. */
  datatype PyError = ValueError | TypeError | KeyError | IndexError | OverflowError

  /** A value, or the exception raised instead; usable with `:-`, where the first exception wins. */
  datatype Outcome<+T> = Ok(value: T) | Raise(error: PyError) {

    predicate IsFailure() {
      Raise?
    }

    function PropagateFailure<U>(): Outcome<U>
      requires Raise?
    {
      Raise(error)
    }

    function Extract(): T
      requires Ok?
    {
      value
    }
  }
}
