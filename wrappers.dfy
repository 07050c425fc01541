/** Optional values (JavaScript's `null`/`undefined`) and results that may
    carry a thrown error. */
module Wrappers {

  datatype Option<+T> = None | Some(value: T)

  /** `Err` stands for an exception thrown out of the modelled function. */
  datatype Result<+T> = Ok(value: T) | Err(message: string)
}
