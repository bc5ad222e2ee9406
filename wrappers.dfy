/** Option and Result: the absent values and raised exceptions of the Python
    code, made explicit. */
module Wrappers {

  datatype Option<+T> = None | Some(value: T)

  /** A Python call either returns a value or raises; `Err` names the exception. */
  datatype Result<+T> = Ok(value: T) | Err(error: PyError)

  /** The exception classes that the modelled code raises or lets escape. */
  datatype PyError = ValueError | TypeError | IndexError | KeyError | RuntimeError
}
