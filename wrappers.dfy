/** Option and Result values for the error paths of the modelled code: a
    numpy/Python exception becomes `None` or `Err`. */
module Wrappers {
  datatype Option<T> = None | Some(value: T)

  datatype Result<T, E> = Ok(value: T) | Err(error: E)
}
