/** Option and Result, used for the lookups and queries that the program
    lets fail with an exception (a null series list, an unknown
    channel in the readiness map, a stored point that is not there). */
module Wrappers {

  datatype Option<+T> = None | Some(value: T)

  datatype Result<+T, +E> = Ok(value: T) | Err(error: E)
}
