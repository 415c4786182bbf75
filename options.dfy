/** Option and Result types shared by the per-day models. */
module Options {

  /** An optional value; the models use it for Rust's `Option`. */
  datatype Option<+T> = None | Some(value: T)

  /** A success value or an error, for Rust's `Result`. */
  datatype Result<+T, +E> = Ok(value: T) | Err(error: E)

}
