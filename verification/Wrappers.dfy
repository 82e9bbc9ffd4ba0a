/** Results that may be missing or fail. */
module Wrappers {

  datatype Option<+T> = None | Some(value: T)

  /** The source raises an error, or an assertion of it fails. */
  datatype Result<+T> = Ok(value: T) | Error
}
