/** Optional and fallible values shared by every page model.

    `Option` stands for a JavaScript value that may be `null`, `undefined`
    or an empty form field; `Result` stands for an operation that either
    produces a value or stops with a user-facing error (a toast message in
    the panel). */
module Values {

  datatype Option<+T> = None | Some(value: T) {

    /** The value, or `default` when absent (JavaScript `??`). */
    function GetOr(default: T): T {
      match this
      case Some(v) => v
      case None => default
    }
  }

  datatype Result<+T, +E> = Ok(value: T) | Err(error: E)
}
