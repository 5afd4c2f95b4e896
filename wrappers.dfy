/** Failure-carrying result types shared by the whole model. A Python
    exception raised by the modelled code becomes an `Err` carrying a
    description of the exception kind. */
module Wrappers {

  datatype Option<+T> = None | Some(value: T)

  datatype Result<+T, +E> = Ok(value: T) | Err(error: E) {
    predicate IsFailure() { Err? }
  }
}
