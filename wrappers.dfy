/** Failure-carrying results used for the exceptions the Python code raises. */
module Wrappers {

  /** A value or nothing: a dictionary lookup that may raise KeyError, a parse that may fail. */
  datatype Option<+T> = None | Some(value: T)

  /** Success, or the failure that was raised. */
  datatype Outcome<+E> = Pass | Fail(error: E)
}
