/** Option and Result values used where the modelled code may find nothing or raise. */
module Wrappers {

  datatype Option<+T> = None | Some(value: T)

  /** `Ok` carries a value; `Err` carries what an exception in the source would carry. */
  datatype Result<+T, +E> = Ok(value: T) | Err(error: E)
}
