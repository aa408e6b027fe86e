/** The optional-value datatype used for "no match", "no header line" and
    "no active editor". */
module Wrappers {

  datatype Option<+T> = None | Some(value: T)

}
