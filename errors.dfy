/** The exceptions the search server throws, as values. */
module Errors {

  /** `std::invalid_argument` and `std::out_of_range`. */
  datatype Error = InvalidArgument | OutOfRange

  /** The outcome of an operation that may throw. */
  datatype Result<+T> = Ok(value: T) | Err(error: Error)
}
