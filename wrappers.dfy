/** Failure-carrying results shared by the other modules. */
module Wrappers {

  /** A value that may be absent. */
  datatype Option<+T> = None | Some(value: T)

  /**
   * The outcome of an operation that either yields a value or fails with a
   * message: a returned Go `error`, or a fatal exit (`log.Fatal`, `os.Exit`).
   */
  datatype Result<+T> = Success(value: T) | Failure(error: string)
}
