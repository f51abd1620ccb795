/** Result shapes shared by the other modules. */
module Wrappers {

  /** A value that may be absent: a nil slice, a missing key, a miss. */
  datatype Option<+T> = None | Some(value: T)

  /** A value or an error; the error's text is never looked at. */
  datatype Result<+T> = Ok(value: T) | Err
}
