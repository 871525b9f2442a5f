/** Option and Result types shared by the model. A Python dictionary lookup
    that raises KeyError is modelled as a Result carrying the missing key. */
module Wrappers {

  datatype Option<+T> = None | Some(value: T)

  /** The only failure the core raises: a key missing from a lookup table. */
  datatype Error = KeyError(key: string)

  datatype Result<+T> = Ok(value: T) | Err(error: Error)
}
