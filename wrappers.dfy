/** Option and Result, the "absent" and "raised" outcomes of the modelled Python helpers. */
module Wrappers {

  datatype Option<+T> = None | Some(value: T)

  /** Failure stands for a Python exception that ends the script; `error` names it. */
  datatype Result<+T> = Ok(value: T) | Failure(error: string)
}
