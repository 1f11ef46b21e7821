/** Option and Result, the two failure shapes the modelled services use:
    a nullable Kotlin value is an Option, a thrown exception is a Result failure. */
module Wrappers {

  datatype Option<+T> = None | Some(value: T) {
    function GetOr(default: T): T {
      match this
      case Some(v) => v
      case None => default
    }
  }

  datatype Result<+T> = Ok(value: T) | Err(error: string)
}
