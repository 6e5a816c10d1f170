/** Failure-carrying values shared by every module of the model. */
module Wrappers {

  /** A value that may be absent; stands for a Java reference that may be null. */
  datatype Option<+T> = None | Some(value: T)

  /** The outcome of an operation that either produces a value or raises an error. */
  datatype Result<+T, +E> = Ok(value: T) | Err(error: E)

  /** The outcome of a check that produces no value. */
  datatype Outcome<+E> = Pass | Fail(error: E)

  /** What a blocking HTTP call returns: a body (possibly null) or a thrown client exception. */
  datatype Remote<+T> = Delivered(body: Option<T>) | CallFailed
}
