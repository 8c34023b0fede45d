/** Option and Result, the two failure-bearing shapes the resolvers return. */
module Wrappers {

  /** A value that may be absent: JavaScript's `undefined` from a failed lookup. */
  datatype Option<+T> = None | Some(value: T)

  /** The outcome of a resolver that can throw: a value, or the thrown error's message. */
  datatype Result<+R, +E> = Success(value: R) | Failure(error: E)
}
