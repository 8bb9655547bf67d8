/** Optional values and the settled result of a call into the backend. */
module Outcomes {

  /** A form field that may be left empty: `None` is the empty input. */
  datatype Option<+T> = None | Some(value: T)

  /** What an awaited backend call settles to: the returned value, or a
      rejection carrying the error's `message` (possibly empty). */
  datatype Reply<+T> = Ok(value: T) | Err(message: string)
}
