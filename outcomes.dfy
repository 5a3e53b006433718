/** Optional values and the failures of the arithmetic and list helpers the UI relies on. */
module Outcomes {

  /** A value that JavaScript would leave `null` or `undefined`. */
  datatype Option<T> = None | Some(value: T)

  /** The exceptions that can escape the modelled code paths. */
  datatype Error =
    | NegativePower   // BigNumber `pow` with a negative exponent
    | EmptyReduce     // Array `reduce` without a seed on an empty array
    | DivisionByZero  // BigNumber `div` by zero
    | InvalidArgument // a contract call given `undefined` where it expects a number

  /** The outcome of a computation that may throw one of the errors above. */
  datatype Result<T> = Ok(value: T) | Err(error: Error)
}
