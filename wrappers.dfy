/** A value that may be absent: a JavaScript `undefined`/`null` made explicit. */
module Wrappers {

  datatype Option<+T> = None | Some(value: T)
}
