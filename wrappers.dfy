/** Failure-carrying results: a Python function that may raise is modelled as
    one returning `Result`, whose `Failure` holds the exception's text. */
module Wrappers {

  datatype Option<T> = None | Some(value: T)

  datatype Result<T> = Success(value: T) | Failure(error: string)
}
