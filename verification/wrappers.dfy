/** Optional values and handler outcomes shared by the whole model. */
module Wrappers {

  /** A value that may be absent: a missing query parameter or a missing JSON key. */
  datatype Option<+T> = None | Some(value: T)

  /** What an HTTP handler produces: either a payload (status 200) or a
      rejection carrying the response text (status 400). */
  datatype Result<+T> = Ok(value: T) | Rejected(message: string)
}
