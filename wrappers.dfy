/** Success/failure values standing in for the Python exceptions the cache raises. */
module Wrappers {

  datatype Option<+T> = None | Some(value: T)

  /** The exception classes the modelled code raises or lets escape. */
  datatype Error =
    | TypeError(msg: string)
    | ValueError(msg: string)
    | RuntimeError(msg: string)
    | AttributeError(msg: string)
    | KeyError(key: string)
    | FileNotFound(path: string)

  datatype Result<+T> = Ok(value: T) | Err(error: Error)
}
