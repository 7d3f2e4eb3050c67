/** Failure-carrying wrappers shared by the store engine and the configuration gate. */
module Outcomes {

  /** An optional value: a JavaScript property or argument that may be absent. */
  datatype Option<+T> = None | Some(value: T)

  /** The outcome an operation hands to its caller: a value, or the error that
      the source reports through a callback's first argument or a `throw`. */
  datatype Result<+T, +E> = Ok(value: T) | Err(error: E)
}
