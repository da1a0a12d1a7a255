/** The "value or nothing" type used for JavaScript's `undefined`/`null`/falsy results. */
module Wrappers {

  datatype Option<+T> = None | Some(value: T)
}
