/** Failure-compatible sum types, the counterparts of Rust's `Result` and
    `Option`. `Result` can be used with `:-`, which plays the role of the
    `?` operator in the handlers. */
module Outcomes {

  datatype Option<+T> = None | Some(value: T)

  datatype Result<+T, +E> = Ok(value: T) | Err(error: E) {

    predicate IsFailure() {
      Err?
    }

    function PropagateFailure<U>(): Result<U, E>
      requires Err?
    {
      Err(error)
    }

    function Extract(): T
      requires Ok?
    {
      value
    }
  }
}
