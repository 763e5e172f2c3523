/** Option and Result values: the "null or record" returns of the older hit
    API and the exceptions thrown while a bounding volume hierarchy is built. */
module Wrappers {

  datatype Option<+T> = None | Some(value: T)

  datatype Result<+T, +E> = Success(value: T) | Failure(error: E)
}
