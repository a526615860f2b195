/** Option, Result and Outcome: the model's stand-ins for Java's null, thrown exceptions and
    void methods that may throw. */
module Wrappers {

  datatype Option<+T> = None | Some(value: T)

  datatype Result<+T, +E> = Success(value: T) | Failure(error: E)

  datatype Outcome<+E> = Pass | Fail(error: E)
}
