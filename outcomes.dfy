/** Values that stand for Java's `null` and for the exceptions the queue and stack throw. */
module Outcomes {

  /** An element reference that may be `null` (`None`). */
  datatype Option<T> = None | Some(value: T)

  /** The two exceptions of the source: `IllegalArgumentException` and `NoSuchElementException`. */
  datatype Error = IllegalArgument | NoSuchElement

  /** Either the value an operation returns or the exception it throws. */
  datatype Result<T> = Ok(value: T) | Err(error: Error)
}
