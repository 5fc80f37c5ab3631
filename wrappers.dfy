/** Optional values and pass/fail outcomes. */
module Wrappers {

  datatype Option<+T> = None | Some(value: T)

  /** The outcome of a check that either returns normally or throws `error`. */
  datatype Outcome<+E> = Pass | Fail(error: E)
}
