/** Results of the client's operations: a value, or the exception the Java code would raise. */
module Outcomes {

  datatype Option<+T> = None | Some(value: T)

  /** What a failing call raises. */
  datatype Failure =
    /** A BeanstemcException carrying the given message (a status word the command did not expect). */
    | Server(message: string)
    /** An IOException raised by the client itself, with its message. */
    | Io(message: string)
    /** An unchecked Java runtime exception: a bad number, a missing token, a negative array size. */
    | Runtime

  datatype Outcome<+T> = Ok(value: T) | Fail(failure: Failure)
}
