/** Option and Result, the two failure-carrying shapes used by every model in this project.
    A `Failure` stands for a Rust `panic!` (or an error return), so no operation of the
    model needs a precondition to exclude an input the Rust code panics on. */
module Wrappers {

  datatype Option<+T> = None | Some(value: T)

  datatype Result<+R, +E> = Success(value: R) | Failure(error: E)
}
