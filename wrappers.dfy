/** Option and Result: the model's stand-ins for Python's `None` results and raised exceptions. */
module Wrappers {

  datatype Option<+T> = None | Some(value: T)

  /** `Err` stands for a Python exception; `E` names which one and where. */
  datatype Result<+T, +E> = Ok(value: T) | Err(error: E)
}
