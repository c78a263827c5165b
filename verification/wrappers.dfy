/** Small failure-carrying datatypes shared by every module of the model. */
module Wrappers {

  /** A value that may be absent: JavaScript's `null`/`undefined` or a missing key. */
  datatype Option<+T> = None | Some(value: T) {
    function GetOr(default: T): T {
      match this
      case Some(v) => v
      case None => default
    }
  }

  /**
   * A thrown JavaScript value. `instanceof Error` values carry a message;
   * anything else thrown (a string, an object literal) has none.
   */
  datatype Thrown = ErrorObject(message: string) | NonErrorValue {
    /** `error instanceof Error ? error.message : fallback` */
    function MessageOr(fallback: string): string {
      match this
      case ErrorObject(m) => m
      case NonErrorValue => fallback
    }
  }

  /** The outcome of an operation that either returns a value or throws. */
  datatype Result<+T> = Ok(value: T) | Throws(error: Thrown)
}
