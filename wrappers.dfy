/** Optional values and results with an error, shared by every module of the model. */
module Wrappers {

  /** A value that may be absent: `undefined`/`null` in TypeScript, `Option` in Rust. */
  datatype Option<+T> = None | Some(value: T)

  /** Either a value or the error that stopped the computation (a Rust panic, a thrown
      TypeError). Usable with `:-`. */
  datatype Result<+T, +E> = Ok(value: T) | Err(error: E) {

    predicate IsFailure() {
      Err?
    }

    function PropagateFailure<U>(): Result<U, E>
      requires Err?
    {
      Err(error)
    }

    function Extract(): T
      requires Ok?
    {
      value
    }
  }
}
