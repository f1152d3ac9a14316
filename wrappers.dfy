/** Optional values and results with an error message, standing for the
    JavaScript `null` and for a thrown `Error(message)`. */
module Wrappers {

  datatype Option<+T> = None | Some(value: T)

  /** `Err(message)` is the `Error` the source throws; callers see its message. */
  datatype Result<+T> = Ok(value: T) | Err(message: string)
}
