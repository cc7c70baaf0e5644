/**
  A missing value (pandas' NaN / NaT, or a Python value that is not a
  string), and the outcome of a step that can raise.
*/
module Optional {

  datatype Option<+T> = None | Some(value: T)

  /** `Failure(column)` stands for the `KeyError` raised on a missing column. */
  datatype Result<+T> = Success(value: T) | Failure(error: string)

}
