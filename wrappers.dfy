/** Optional cells and fallible results used throughout the model. */
module Wrappers {

  /** A cell that may be missing: pandas' NaN / NaT / None. */
  datatype Option<+T> = None | Some(value: T) {

    /** The value, or `default` when missing (pandas' `fillna(default)` on one cell). */
    function GetOr(default: T): T {
      match this
      case Some(v) => v
      case None => default
    }
  }

  /** The outcome of a stage that may abort the run. */
  datatype Result<+T, +E> = Success(value: T) | Failure(error: E)
}
