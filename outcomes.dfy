/** Optional values, the errors a call can raise, and results that carry either. */
module Outcomes {

  /** A value that may be absent (an optional schema property, an undefined argument). */
  datatype Option<+T> = None | Some(value: T)

  /**
   * What a call can throw:
   * - Thrown: an `Error` raised by the library itself, with its message;
   * - NullDereference: the TypeError of calling a method on a `null` sheet;
   * - InvalidRange: the backend's refusal of a range that starts before row 1
   *   or has no rows or no columns.
   */
  datatype Error = Thrown(message: string) | NullDereference | InvalidRange

  /** The outcome of a call that either returns a value or throws. */
  datatype Result<+T> = Success(value: T) | Failure(error: Error)
}
