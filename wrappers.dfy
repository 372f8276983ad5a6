/** The optional value used wherever the program reads something that may be absent:
    a key of the submitted form data, the parse of a modification code, a page number. */
module Wrappers {

  datatype Option<+T> = None | Some(value: T)
}
