/** Small wrapper datatypes used throughout the model: an optional value
    (a nullable column, a row that may be missing) and a value-or-error result
    (an HTTP handler that either answers or raises). */
module Wrappers {

  datatype Option<+T> = None | Some(value: T)

  datatype Result<+T, +E> = Ok(value: T) | Err(error: E)
}
