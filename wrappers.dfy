/** Failure-compatible wrapper used across the model: a missing value, a NaN
    cell, a masked raster cell or a call that raised. */
module Wrappers {

  datatype Option<+T> = None | Some(value: T) {

    /** The wrapped value, or `default` when there is none. */
    function GetOr(default: T): T {
      match this
      case Some(v) => v
      case None => default
    }
  }
}
