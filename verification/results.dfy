/** Option and Result, the two failure-carrying shapes the model uses for
    nullable columns, absent rows and thrown errors. */
module Results {

  /** A nullable value: `None` stands for SQL NULL or a JavaScript `null`/`undefined`. */
  datatype Option<+T> = None | Some(value: T) {

    /** The carried value, or `default` when there is none. */
    function GetOr(default: T): T {
      match this
      case Some(v) => v
      case None => default
    }
  }

  /** The outcome of a call that may throw: `Err` carries what was thrown. */
  datatype Result<+T, +E> = Ok(value: T) | Err(error: E)
}
