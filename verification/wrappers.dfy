/** Failure-carrying result types shared by the whole model. */
module Wrappers {

  /** An optional value: PHP's `null` / "not set" on one side, a value on the other. */
  datatype Option<+T> = None | Some(value: T) {

    /** The carried value, or `default` when there is none (PHP's `??`). */
    function GetOr(default: T): T {
      match this
      case Some(v) => v
      case None => default
    }
  }

  /** The outcome of an operation that may fail with an error of type `E`
      (a `WP_Error` or an early `false` return in the source). */
  datatype Result<+R, +E> = Ok(value: R) | Err(error: E) {

    predicate IsOk() {
      Ok?
    }
  }
}
