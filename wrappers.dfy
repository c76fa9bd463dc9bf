/** Failure-carrying datatypes shared by the rest of the model. */
module Wrappers {

  /** A value that may be absent (JavaScript's `null`/`undefined`). */
  datatype Option<+T> = None | Some(value: T)

  /** The outcome of a step that either returns a value or throws an error. */
  datatype Result<+T, +E> = Success(value: T) | Failure(error: E)

  /** An octet, as held by a Node.js `Buffer`. */
  type Byte = b: int | 0 <= b < 256
}
