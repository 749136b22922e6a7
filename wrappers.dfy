/** The optional value used wherever the JavaScript code has `null`, `undefined`
    or a swallowed exception in place of a value. */
module Wrappers {

  datatype Option<+T> = None | Some(value: T)
}
