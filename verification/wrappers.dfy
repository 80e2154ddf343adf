/** Optional values and results with an error, the two shapes in which the
    crawler's inputs and partial operations are modelled. */
module Wrappers {

  /** A value that may be missing: Ruby's `nil` is `None`. */
  datatype Option<+T> = None | Some(value: T) {

    /** Ruby's `x || default` for a value that is either `nil` or truthy. */
    function GetOr(default: T): T {
      match this
      case Some(v) => v
      case None => default
    }
  }

  /** The outcome of an operation that may raise. */
  datatype Result<+T, +E> = Ok(value: T) | Err(error: E)
}
