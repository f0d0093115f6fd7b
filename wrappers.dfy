/** The optional result shared by the codecs. */
module Wrappers {

  /** `std::optional` on the C++ side; a present value or nothing. */
  datatype Option<+T> = None | Some(value: T)

  /** A value, or the exception that Python code would raise instead. */
  datatype Result<+T, +E> = Ok(value: T) | Err(error: E)
}
