/** Option and Result, the two wrappers the rest of the model returns. */
module Wrappers {

  datatype Option<+T> = None | Some(value: T)

  /** The outcome of an operation whose Python original may raise:
      `Failure` carries the exception's message. */
  datatype Result<+R> = Success(value: R) | Failure(error: string)
}
