/** Failure-carrying wrappers shared by every module of the task model. */
module Wrappers {

  /** An optional value: a JSON field that may be absent, or a JSON `null`. */
  datatype Option<+T> = None | Some(value: T)

  /** The outcome of an asynchronous call: the resolved value, or the rejection message. */
  datatype Result<+T> = Success(value: T) | Failure(message: string)
}
