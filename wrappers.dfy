/** Option and Outcome, used for the source's `false`/`null` returns and its exceptions. */
module Wrappers {

  datatype Option<+T> = None | Some(value: T)

  /** Pass, or Fail with the message of the exception the source throws. */
  datatype Outcome<+E> = Pass | Fail(error: E)
}
