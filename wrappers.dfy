/** Option and Result, the failure-carrying wrappers used by every other module. */
module Wrappers {

  /** A value that may be absent: a missing HTML node or attribute, a `null` return. */
  datatype Option<+T> = None | Some(value: T) {

    /** The value, or `default` when absent (`GetAttributeValue(name, default)`, `?? "Unknown"`). */
    function GetOr(default: T): T {
      match this
      case Some(v) => v
      case None => default
    }
  }

  /** The outcome of an operation that may throw: `Err` carries the exception message. */
  datatype Result<+R> = Ok(value: R) | Err(error: string)
}
