/** The two failure-compatible datatypes the models share. */
module Wrappers {

  datatype Option<+T> = None | Some(value: T)

  datatype Result<+R, +E> = Ok(value: R) | Err(error: E) {

    predicate IsFailure() {
      Err?
    }

    function PropagateFailure<U>(): Result<U, E>
      requires Err?
    {
      Err(this.error)
    }

    function Extract(): R
      requires Ok?
    {
      value
    }
  }
}
