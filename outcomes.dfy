/** The failures of the game engine. Every one of them is an
    IllegalArgumentException in the Java code; the constructor here names
    the message it carries. */
module Outcomes {

  datatype Error =
    | InvalidValue        // "Invalid value": a box value below DELTA
    | NullAmounts         // "Null monetary amounts"
    | InvalidAmounts      // "Invalid monetary amounts": fewer than two amounts
    | InvalidIndex        // "Invalid index"
    | InvalidSwaps        // "Invalid number of swaps"

  /** The result of an operation that returns a value or throws. */
  datatype Result<+T> = Ok(value: T) | Err(error: Error)

  /** A value that may be absent. */
  datatype Option<+T> = None | Some(value: T)

  /** The result of a void operation that may throw. */
  datatype Outcome = Pass | Fail(error: Error)
}
