/** The optional value used for `null`/`undefined` results (a cleared
    selection, a failed `find`, a token that is not a number). */
module Wrappers {

  datatype Option<+T> = None | Some(value: T)
}
