/** Failure-carrying values shared by the whole model.

    The library works with a type-erased error (`failure::Error`), reached
    through the `Result<T>` alias of src/lib.rs. Rust panics (`unwrap` on
    `None`, a failed `assert!`, `unimplemented!()`) are not error values: the
    model keeps them apart in `Run`. */
module Wrappers {

  datatype Option<+T> = None | Some(value: T)

  /** A type-erased error: only its message is observable. */
  datatype Error = Failure(message: string)

  /** `Result<T>` of the library: `Ok` or a type-erased `Err`. */
  datatype Result<+T> = Ok(value: T) | Err(error: Error)

  /** The outcome of running Rust code that may panic. */
  datatype Run<+T> = Returned(value: T) | Panicked
}
