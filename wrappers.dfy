/**
 * Failure values shared by the matrix and vector models.
 * Each Java exception that the modelled code throws becomes one
 * constructor of Error; an operation that may throw returns a Result
 * (with a value) or an Outcome (without one).
 */
module Wrappers {

  datatype Error =
    | IndexOutOfBounds        // IndexOutOfBoundsException
    | UnsupportedOperation    // UnsupportedOperationException
    | IllegalArgument         // IllegalArgumentException
    | InvalidSize             // VectorzException from PermutationMatrix.validate
    | InvalidPermutation      // the bijection check that validate() does not make
    | InvalidLowerLimit(limit: int)   // VectorzException "Invalid lower limit"
    | InvalidUpperLimit(limit: int)   // VectorzException "Invalid upper limit"
    | InvalidBandLength(band: int)    // VectorzException "Invalid band length"

  datatype Result<T> = Ok(value: T) | Err(error: Error)

  datatype Outcome = Pass | Fail(error: Error)
}
