/** Optional values and results shared by every module of the model. */
module Wrappers {

  /** A value that may be absent. */
  datatype Option<+T> = None | Some(value: T)

  /** Either a value or the error that prevented it. */
  datatype Result<+T, +E> = Ok(value: T) | Err(error: E)

  /** Raw bytes, as captured from a remote process's output streams. */
  type Bytes = seq<bv8>
}
