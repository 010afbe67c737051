/** Optional values and fallible results shared by every module. */
module Wrappers {
  datatype Option<+T> = None | Some(value: T)

  datatype Result<+T, +E> = Success(value: T) | Failure(error: E)

  /** What the reader of a growing buffer can say about the bytes it has so far. */
  datatype Verdict<+T> = NeedMore | Malformed | Complete(value: T)
}
