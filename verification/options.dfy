/** `T | null` and "returns a value or throws", as datatypes. */
module Options {

  /** A JavaScript value that may be `null` (or `undefined`). */
  datatype Option<+T> = None | Some(value: T)

  /** The outcome of a call that may throw: the thrown error's message on failure. */
  datatype Result<+T> = Success(value: T) | Failure(error: string)
}
