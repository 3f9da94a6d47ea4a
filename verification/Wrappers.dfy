/** The two failure-compatible datatypes the models share. */
module Wrappers {

  datatype Option<+T> = None | Some(value: T)

  /** An operation either returns a value or raises one of the source's exceptions. */
  datatype Result<+T, +E> = Ok(value: T) | Err(error: E) {
    predicate IsFailure() {
      Err?
    }

    function PropagateFailure<U>(): Result<U, E>
      requires Err?
    {
      Err(error)
    }

    function Extract(): T
      requires Ok?
    {
      value
    }
  }
}
