/** The optional-value wrapper used for JavaScript's `undefined` / "not found". */
module Wrappers {

  datatype Option<+T> = None | Some(value: T)
}
