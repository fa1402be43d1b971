/** Option and Result, the two failure-carrying shapes the model uses for C's NULL
    returns and for the fatal-error exits of the datafile loader. */
module Wrappers {

  datatype Option<+T> = None | Some(value: T)

  datatype Result<+T, +E> = Ok(value: T) | Err(error: E)
}
