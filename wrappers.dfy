/** Failure-carrying values shared by the modules of this model: Go's
    `(value, error)` pairs become `Result`, and a bare `error` (nil or not)
    becomes `Option`. */
module Wrappers {

  datatype Option<+T> = None | Some(value: T)

  datatype Result<+T, +E> = Success(value: T) | Failure(error: E)
}
