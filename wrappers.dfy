/** Failure-carrying results used where the source throws or may produce nothing. */
module Wrappers {

  datatype Option<+T> = None | Some(value: T)

  /** The outcome of an operation that returns nothing on success and throws on failure. */
  datatype Outcome<+E> = Pass | Fail(error: E)
}
