/** Failure-carrying values shared by every module. */
module Wrappers {

  datatype Option<+T> = None | Some(value: T)

  datatype Result<+R, +E> = Ok(value: R) | Err(error: E)

  function Or<T>(o: Option<T>, default: T): T {
    if o.Some? then o.value else default
  }

  /** An INTEGER column. */
  type I32 = n: int | -0x8000_0000 <= n < 0x8000_0000
}
