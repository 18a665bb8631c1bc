/** An optional value (the Optional a name lookup returns) and a
    success/error result, as the step model uses them. */
module Wrappers {

  datatype Option<+T> = None | Some(value: T)

  datatype Result<+R, +E> = Success(value: R) | Failure(error: E)
}
