/** Wrappers used across the model: `Option` stands in for a Unity reference
    that may be null, `Result` for an operation that can refuse, and
    `Variant` selects between a defective function as written and its
    correction. */
module Wrappers {

  datatype Option<+T> = None | Some(value: T) {

    /** The wrapped value, or `default` when there is none. */
    function GetOr(default: T): T {
      match this
      case Some(v) => v
      case None => default
    }
  }

  datatype Result<+T, +E> = Success(value: T) | Failure(error: E) {

    /** The wrapped value, or `default` when the operation failed. */
    function GetOr(default: T): T {
      match this
      case Success(v) => v
      case Failure(_) => default
    }
  }

  /** Which version a composite uses of a function whose source is defective:
      the code as written, or the corrected one. */
  datatype Variant = AsWritten | Corrected
}
