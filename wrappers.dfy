/** The success-or-error value that replaces Python's exceptions in this model. */
module Wrappers {

  datatype Result<+T, +E> = Ok(value: T) | Err(error: E)
}
