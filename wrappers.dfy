/** Small value wrappers shared by every module of the model. */
module Wrappers {

  /** A value that may be absent: `null`/`undefined` in TypeScript, `Option` in Rust. */
  datatype Option<+T> = None | Some(value: T) {
    /** The wrapped value, or `default` when absent (`?? default`, `unwrap_or_default`). */
    function GetOr(default: T): T {
      match this
      case Some(v) => v
      case None => default
    }
  }

  /** How an asynchronous call into code outside the model settles: a resolved
      value, or a rejection carrying the error's text. */
  datatype Outcome<+T> = Resolved(value: T) | Rejected(error: string)

  /** A Rust `anyhow::Result`: a value, or an error message. */
  datatype Result<+T> = Ok(value: T) | Err(message: string)
}
