/** Small failure-aware wrappers shared by every module of the model. */
module Wrappers {

  /** A value that may be absent: JavaScript's `undefined`/`null` on a typed slot. */
  datatype Option<+T> = None | Some(value: T)

  /** The result of JavaScript code that either returns a value or throws a
      TypeError (for instance by reading a property of `null`). */
  datatype Outcome<+T> = Returned(value: T) | Threw
}
