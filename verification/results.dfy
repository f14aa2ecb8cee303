/** Optional values, standing for Go's `(value, error)` pairs whose error is either nil or not. */
module Results {

  datatype Option<+T> = None | Some(value: T) {

    /** The value, or `default` when there is none (Go's zero value after an ignored error). */
    function GetOr(default: T): T {
      match this
      case Some(v) => v
      case None => default
    }
  }

  /** The outcome of a step that may end the run with `log.Fatal`. */
  datatype Result<+T> = Ok(value: T) | Fatal(message: string)
}
