/** The optional-value datatype shared by the rest of the model: Go's nil-able
    error values and Rust's `Option` both become `Option`. */
module Wrappers {

  datatype Option<+T> = None | Some(value: T)
}
