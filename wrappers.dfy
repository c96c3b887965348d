/** A value that may be absent: JavaScript's `undefined`/`null`/NaN results, Rust's
    `Option`. */
module Wrappers {
  datatype Option<T> = None | Some(value: T)
}
