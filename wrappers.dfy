/** Optional values and error results, standing for pandas nulls and Python exceptions. */
module Wrappers {

  /** A possibly missing value: `None` plays the part of a pandas null (NaN) or of Python's `None`. */
  datatype Option<+T> = None | Some(value: T)

  /** The outcome of a step that may raise: `Failure` carries the exception the step would raise. */
  datatype Result<+T, +E> = Success(value: T) | Failure(error: E)
}
