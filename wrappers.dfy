/** Failure-carrying values shared by every service model: a JavaScript value that
    may be `null`, a call that returns a value or throws, a check that passes or throws. */
module Wrappers {

  datatype Option<+T> = None | Some(value: T)

  datatype Result<+T, +E> = Ok(value: T) | Err(error: E)

  datatype Outcome<+E> = Pass | Fail(error: E)
}
