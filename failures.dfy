/** Result types standing in for the exceptions the vending machine throws.
    Each C# exception becomes an `Error` value; a C# method that returns
    normally becomes `Success`/`Pass`. */
module Failures {

  /** The error kinds. `InvalidArgument` keeps the parameter name the C# code
      passes to ArgumentException/ArgumentOutOfRangeException/ArgumentNullException,
      so which validation fired first stays observable. */
  datatype Error =
    | InvalidArgument(param: string)
    | NotFound
    | OutOfStock
    | CapacityExceeded
    | InsufficientFunds
    | ChangeNotAvailable

  /** A value that may be absent: C# null, or a `int?` without a value. */
  datatype Option<T> = None | Some(value: T)

  /** The outcome of an operation that returns a value or throws. */
  datatype Result<T> = Success(value: T) | Failure(error: Error)

  /** The outcome of an operation that returns nothing or throws. */
  datatype Outcome = Pass | Fail(error: Error)
}
