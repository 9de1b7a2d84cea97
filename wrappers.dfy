/** Failure-carrying values shared by the handlers: a JavaScript value that may be
    `undefined` or a Python key that may be missing is an `Option`; a call that may
    raise is a `Result`. */
module Wrappers {

  datatype Option<+T> = None | Some(value: T)

  datatype Result<+R, +E> = Success(value: R) | Failure(error: E)
}
