/** Failure-compatible wrappers shared by every module of the model.
    - Option<T>: a JavaScript value that may be `null`/`undefined`.
    - Result<T>: a server action that either returns a value or throws an Error whose message is shown.
    - Outcome: an awaited call whose value is not used (a resolved or a rejected promise). */
module Wrappers {

  datatype Option<+T> = None | Some(value: T) {
    /** `x ?? d` */
    function GetOr(default: T): T {
      match this
      case Some(v) => v
      case None => default
    }
  }

  datatype Result<+T> = Ok(value: T) | Err(message: string)

  datatype Outcome = Pass | Fail(message: string)

  /** The identity resolved from the request: `session?.user`, or nothing for an anonymous caller. */
  type UserId = string
  type Session = Option<UserId>
}
