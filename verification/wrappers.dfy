/** Option and Result values shared by every puzzle module.
    `Result` carries an error message, as the `anyhow` errors of the
    solutions do; a Rust panic that a model turns into an error uses it too. */
module Wrappers {

  datatype Option<T> = None | Some(value: T)

  datatype Result<T> = Ok(value: T) | Err(error: string) {
    predicate IsFailure() {
      Err?
    }

    function PropagateFailure<U>(): Result<U>
      requires Err?
    {
      Err(error)
    }

    function Extract(): T
      requires Ok?
    {
      value
    }
  }
}
