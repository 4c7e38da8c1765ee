/** Optional values and outcomes shared by both parts of the model. */
module Wrappers {

  datatype Option<+T> = None | Some(value: T)

  /** Outcome of a checking step; the source's error carries no payload. */
  datatype Result<+T> = Ok(value: T) | Err
}
