/** Failure-carrying results used where the driver raises a Python exception. */
module Wrappers {

  datatype Option<+T> = None | Some(value: T)

  datatype Result<+R, +E> = Success(value: R) | Failure(error: E)

  /** The Python exceptions the driver's own code can raise. */
  datatype Fault =
    | IOError            // a bus write failed and the caller was not shielded from it
    | IndexError         // a column index past the end of the buffer
    | ZeroDivisionError  // a modulo or division by zero
    | ValueError         // min() or max() of an empty sequence
}
