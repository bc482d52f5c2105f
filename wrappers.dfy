/** Optional values and results with an error message, shared by every module of the model. */
module Wrappers {

  /** A value that may be absent: `undefined` or `null` on the JavaScript side. */
  datatype Option<+T> = None | Some(value: T)

  /** The outcome of a step that can throw: its value, or the thrown error's message. */
  datatype Result<+T> = Success(value: T) | Failure(message: string)
}
