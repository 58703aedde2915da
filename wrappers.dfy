/** The failure-carrying values the reconciler passes around: Go's `error`
    becomes an optional `Error`, and an operation that either yields a value
    or fails (reading a file, loading the configuration) yields a `Result`. */
module Wrappers {

  datatype Option<+T> = None | Some(value: T)

  /** A Go `error`; only its message is kept. */
  datatype Error = Error(message: string)

  datatype Result<+T> = Ok(value: T) | Failure(error: Error)
}
