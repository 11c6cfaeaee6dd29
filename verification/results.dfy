/** Failure-carrying values. The source reports failures by throwing; the model
    returns them, so that every error path is an ordinary value that contracts
    can talk about. Both types work with `:-`. */
module Results {

  /** A possibly-absent value: the source's nullable references. */
  datatype Option<+T> = None | Some(value: T)

  /** Either a value or the error that would have been thrown instead. */
  datatype Result<+T, +E> = Ok(value: T) | Err(error: E) {

    predicate IsFailure() {
      Err?
    }

    function PropagateFailure<U>(): Result<U, E>
      requires Err?
    {
      Err(error)
    }

    function Extract(): T
      requires Ok?
    {
      value
    }
  }
}
