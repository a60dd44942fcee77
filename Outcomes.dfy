/** Optional values, and the Python exceptions that the modelled code raises itself.
    Exceptions raised inside Pillow are not listed here: they are oracles of the model. */
module Outcomes {

  datatype Option<T> = None | Some(value: T)

  /** The built-in exceptions the watermark code can raise on its own. */
  datatype Fault = ZeroDivisionError | TypeError | KeyError

  datatype Result<T> = Ok(value: T) | Err(fault: Fault)
}
