/** The absent-or-present value used wherever the JavaScript code returns
    `undefined` instead of an item. */
module Wrappers {

  datatype Option<+T> = None | Some(value: T)
}
