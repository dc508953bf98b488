/** The outcome of an operation that may raise: either a value or the message
    of the exception it raised (what `str(e)` gives in the handler). */
module Wrappers {

  datatype Result<+T> = Ok(value: T) | Err(error: string)
}
