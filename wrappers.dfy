// Small result types shared by every module of the model.
module Wrappers {

  datatype Option<T> = None | Some(value: T)

  /** The value of an operation that either produces a value or raises an error. */
  datatype Result<T, E> = Ok(value: T) | Err(error: E)

  /** The outcome of an operation whose only result is whether it raised an error. */
  datatype Outcome<E> = Pass | Fail(error: E)
}
