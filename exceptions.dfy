/** The failure-carrying datatypes of the model and the Java exceptions they stand for. */
module Exceptions {

  /** A Java reference that may be null: None is null. */
  datatype Option<+T> = None | Some(value: T)

  /** A call that returns a value or throws. */
  datatype Result<+R> = Success(value: R) | Failure(error: Exception)

  /** A call that returns normally (void) or throws. */
  datatype Outcome = Pass | Fail(error: Exception)

  /** The unchecked exceptions the modelled code throws, each with its message. */
  datatype Exception =
    | IllegalArgument(message: string)
    | IllegalState(message: string)
    | RejectedExecution(message: string)
}
