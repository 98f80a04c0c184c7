/** Failure-carrying values shared by the other modules. */
module Wrappers {

  /** A value that may be missing: JavaScript's `undefined` where the model needs one. */
  datatype Option<+T> = None | Some(value: T)

  /** The outcome of a step that may throw: the thrown error's message on failure. */
  datatype Result<+T> = Ok(value: T) | Err(message: string)
}
