/** Results of Java calls that may throw, and optional values. */
module Outcomes {

  datatype Option<+T> = None | Some(value: T)

  /** A call's result, or the exception it threw, known by its message
      (`e.getMessage()`). */
  datatype Outcome<+T> = Ok(value: T) | Fail(message: string)

  /** The Java `void` result. */
  datatype Unit = Unit
}
