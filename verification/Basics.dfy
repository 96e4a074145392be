/** Types shared by every component. */
module Basics {
  /** Reading of a monotonic clock. */
  type Instant = nat

  datatype Option<+T> = None | Some(value: T)

  datatype Result<+T, +E> = Ok(value: T) | Err(error: E)
}
