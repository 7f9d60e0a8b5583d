/** Optional values and fallible results, as used throughout the model. */
module Wrappers {

  /** Swift's `Optional`: `None` plays the role of `nil`. */
  datatype Option<+T> = None | Some(value: T) {

    /** The wrapped value, or `default` when there is none (Swift's `??`). */
    function GetOr(default: T): T {
      match this
      case Some(v) => v
      case None => default
    }
  }

  /** The outcome of a network call: a value, or a failure that carries no detail. */
  datatype Result<+T> = Success(value: T) | Failure {

    /** The value on success, or `default` on failure (Combine's `replaceError(with:)`). */
    function ReplaceError(default: T): T {
      match this
      case Success(v) => v
      case Failure => default
    }
  }
}
