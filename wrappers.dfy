/** Option and Settled types standing in for JavaScript's `undefined` and for thrown errors. */
module Wrappers {

  /** A value that may be absent (`undefined` in the source). */
  datatype Option<+T> = None | Some(value: T)

  /** The settled state of a promise that carries no value: resolved, or rejected with an error. */
  datatype Settled<+E> = Resolved | Rejected(error: E)
}
