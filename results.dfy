/** Optional values, and results that carry an error, shared by the modules of the model. */
module Results {

  /** Something that may be missing: the source's `null` (or `undefined`) or a value. */
  datatype Option<+T> = None | Some(value: T)

  /** The value of a computation, or the error it throws. */
  datatype Result<+T, +E> = Ok(value: T) | Err(error: E)
}
