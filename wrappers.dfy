/** The optional-value and error-or-value datatypes the rest of the model uses
    for JavaScript's `null`/missing values and for thrown errors. */
module Wrappers {

  datatype Option<+T> = None | Some(value: T)

  datatype Result<+T, +E> = Success(value: T) | Failure(error: E)
}
