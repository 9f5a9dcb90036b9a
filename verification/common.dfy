/** Values shared by every part of the model: optional values, the error
    kinds the services raise, and timestamps. */
module Common {

  /** A Java reference that may be null, or a `java.util.Optional`. */
  datatype Option<+T> = None | Some(value: T)

  /** The exception families the services throw. */
  datatype Error =
    | NotFound      // NotFoundException
    | Unacceptable  // UnacceptableValueException
    | Validation    // ValidationException
    | Duplicate     // DuplicateEmailException
    | Runtime       // a plain RuntimeException

  /** The outcome of a service call: a value, or the exception it throws. */
  datatype Result<+T> = Ok(value: T) | Err(error: Error)

  /** A `LocalDateTime`, as an integer timestamp on one clock. */
  type Time = int
}
