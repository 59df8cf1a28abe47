/** What a gathered coroutine can end with: a returned value or a raised
    exception. `asyncio.gather` re-raises the first exception of its
    children, so a batch is either all values or one exception. */
module Outcomes {

  /** The Python exceptions the modelled scripts can raise. */
  datatype Exception = IndexError | ValueError

  /** Python's `None` or a value. */
  datatype Option<+T> = None | Some(value: T)

  /** A coroutine either returns `value` or raises `error`. */
  datatype Result<+T> = Ok(value: T) | Raised(error: Exception)
}
