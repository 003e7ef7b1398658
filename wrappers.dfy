/** Optional values, and the outcome of a JavaScript call that may throw. */
module Wrappers {

  /** A value that may be absent (`undefined` in the source). */
  datatype Option<T> = None | Some(value: T)

  /** A call either returns a value or throws (a `TypeError` in every case
      this model meets). */
  datatype Outcome<T> = Returned(value: T) | Raised
}
