/** Failure-compatible wrappers shared by every module, and the exceptions the
    modelled code raises. */
module Results {

  datatype Option<+T> = None | Some(value: T)

  /** Ok carries a value; Err carries the exception the source would raise. */
  datatype Result<+T, +E> = Ok(value: T) | Err(error: E) {

    predicate IsFailure() {
      Err?
    }

    function PropagateFailure<U>(): Result<U, E>
      requires Err?
    {
      Err(error)
    }

    function Extract(): T
      requires Ok?
    {
      value
    }
  }

  /** The Python exceptions that can escape from the modelled code. */
  datatype Error =
    | KeyError(key: string)
    | AttributeError(name: string)
    | TypeError(message: string)
}
