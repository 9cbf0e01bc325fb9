/** The success-or-error value every parsing step returns, in place of the
    exceptions the original code raises. */
module Results {

  /** Either a computed value or the error that stopped the computation. */
  datatype Result<+T, +E> = Success(value: T) | Failure(error: E)
}
