/** Failure-carrying result type shared by the ledger operations. */
module Wrappers {

  /** Either a successful value or an error value. */
  datatype Result<+T, +E> = Success(value: T) | Failure(error: E)
}
