/** Option and Result, the two failure-carrying shapes the validator uses. */
module Wrappers {

  /** `Option<T>` in the Rust program: an optional ASN, an optional max length. */
  datatype Option<+T> = None | Some(value: T) {

    /** The contained value, or `default` when there is none (`unwrap_or`). */
    function UnwrapOr(default: T): (r: T)
      ensures Some? ==> r == value
      ensures None? ==> r == default
    {
      match this
      case Some(v) => v
      case None => default
    }
  }

  /** `Result<T, E>` in the Rust program. */
  datatype Result<+T, +E> = Ok(value: T) | Err(error: E)
}
