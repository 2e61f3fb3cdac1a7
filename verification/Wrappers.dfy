/** Optional values and results, for the source's error returns. */
module Wrappers {
  datatype Option<+T> = None | Some(value: T)

  datatype Result<+T, +E> = Ok(value: T) | Err(error: E)

  /** How a write ends: done, done with the reply lost, or not done. */
  datatype Outcome = Succeeds | SucceedsUnseen | Fails
}
