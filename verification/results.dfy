/** Failure-carrying values shared by the model.

    JavaScript's `null`/`undefined` becomes `Option`; a thrown `Error(message)`
    becomes `Result.Err(message)`. */
module Results {

  datatype Option<+T> = None | Some(value: T) {

    /** The value, or `default` when absent (JavaScript's `x = default` destructuring). */
    function GetOr(default: T): T {
      match this
      case Some(v) => v
      case None => default
    }
  }

  /** The outcome of an operation that may throw `new Error(message)`. */
  datatype Result<+T> = Ok(value: T) | Err(message: string)
}
