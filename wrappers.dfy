/** Small value types shared by the storage owner and the vector. */
module Wrappers {

  /** A handle that may be absent: the model of a raw pointer that may be null. */
  datatype Option<T> = None | Some(value: T)

  /** The one recoverable failure of the container: a checked access past the live range. */
  datatype Error = OutOfRange

  /** The outcome of a checked read: the element, or the failure that `At` throws. */
  datatype Result<T> = Success(value: T) | Failure(error: Error)

  /** The outcome of a checked write, which yields no value. */
  datatype Outcome = Pass | Fail(error: Error)
}
