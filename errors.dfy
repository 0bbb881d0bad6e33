/** The exceptions the services throw, as values, and the wrappers that carry them. */
module Errors {

  /** The failures a service call can end in. */
  datatype Error =
    | NotFound     // ResourceNotFoundException: the record is absent or owned by another user
    | BadRequest   // BadRequestException: the operation is not allowed in the record's state
    | InvalidDate  // java.time.DateTimeException: a month number outside 1..12

  /** A service result: the value returned, or the exception thrown. */
  datatype Result<T> = Ok(value: T) | Err(error: Error)

  /** A value that may be null (or a lookup that may come back empty). */
  datatype Option<T> = None | Some(value: T)

  /** The outcome of a call that returns nothing. */
  datatype Outcome = Done | Failed(error: Error)
}
