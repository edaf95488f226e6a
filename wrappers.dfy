/** Optional values (Java's null and Optional) and results with an error
    value (Java's exceptions that a caller sees as an ordinary outcome). */
module Wrappers {

  datatype Option<+T> = None | Some(value: T)

  datatype Result<+T, +E> = Success(value: T) | Failure(error: E)
}
