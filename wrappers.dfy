/** Option and Result, used for Python's `None` and for "returns a value or raises". */
module Wrappers {

  datatype Option<+T> = None | Some(value: T)

  /** `Success(v)`: the call returned `v`; `Failure(e)`: the call raised `e`. */
  datatype Result<+T, +E> = Success(value: T) | Failure(error: E)
}
