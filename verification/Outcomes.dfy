/** Success-or-failure values shared by the other modules. */
module Outcomes {

  datatype Option<+T> = None | Some(value: T)

  /** The source's `(value, error)` pairs; the error text is not modelled. */
  datatype Result<+T> = Ok(value: T) | Err

  /** A write: done, not done, or done although it reported failure. */
  datatype Fate = Succeeds | FailsBefore | FailsAfter {
    predicate TakesEffect() { !FailsBefore? }
  }
}
