/** The optional value used for JavaScript's `null` results and for pages or
    links that yield nothing. */
module Wrappers {

  datatype Option<+T> = None | Some(value: T)
}
