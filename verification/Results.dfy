/** Results and the exception classes that the modelled code raises. */
module Results {

  datatype Option<+T> = None | Some(value: T)

  /**
   * Python exception classes; a subclass such as UnicodeDecodeError counts as its base, and messages are not
   * modelled.
   */
  datatype Fault =
    | ValueError
    | OverflowError
    | BufferError
    | StructError
    | StopIteration
    | OSError

  datatype Result<+T> = Ok(value: T) | Err(error: Fault) {

    predicate IsFailure() {
      Err?
    }

    function PropagateFailure<U>(): Result<U>
      requires Err?
    {
      Err(error)
    }

    function Extract(): T
      requires Ok?
    {
      value
    }
  }
}
