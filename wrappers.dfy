/** Optional values and results with an error message, used where the
    application produces a missing value (an unparsable date) or a failure
    (a table that cannot be loaded or scored). */
module Wrappers {

  datatype Option<+T> = None | Some(value: T)

  datatype Result<+T> = Ok(value: T) | Err(error: string)
}
