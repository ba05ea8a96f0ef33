/** Absent-or-present values: a JavaScript `undefined`/`null` field or a present one. */
module Wrappers {

  datatype Option<+T> = None | Some(value: T)
}
