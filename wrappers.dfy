/** Optional values and outcomes that may carry a raised exception's message. */
module Wrappers {

  datatype Option<+T> = None | Some(value: T)

  /** The result of a computation that either returns a value or raises an
      exception, represented by the exception's message (Python's `str(e)`). */
  datatype Outcome<+T> = Ok(value: T) | Raised(message: string)
}
