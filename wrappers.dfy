/** Optional values and results shared by the whole model.
    `None` stands for a missing or undefined number (NaN in numpy and pandas),
    `Failure` for a lookup of a column that the data frame does not have. */
module Wrappers {

  datatype Option<+T> = None | Some(value: T)

  datatype Result<+R, +E> = Success(value: R) | Failure(error: E)
}
