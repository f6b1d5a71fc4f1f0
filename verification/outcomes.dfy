/** Optional values and success-or-failure results shared by every module. */
module Outcomes {

  /** A value that may be absent: JavaScript's `undefined`/`null` return of a lookup. */
  datatype Option<T> = None | Some(value: T)

  /** Either a computed value or the fault that stopped the computation. */
  datatype Result<T, E> = Success(value: T) | Failure(error: E)
}
