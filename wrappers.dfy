/** Option and Result: the model's stand-ins for `undefined` and for thrown errors. */
module Wrappers {

  datatype Option<+T> = None | Some(value: T) {
    function GetOr(default: T): T {
      match this
      case Some(v) => v
      case None => default
    }
  }

  /** A JavaScript computation that either returns a value or throws an Error
      whose `message` is carried in Err. */
  datatype Result<+T> = Ok(value: T) | Err(message: string)
}
