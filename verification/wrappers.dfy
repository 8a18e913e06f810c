/** Option and Result values shared by the models: a Java reference that may be null,
    and a value that is either returned or replaced by a thrown exception. */
module Wrappers {

  /** A Java reference: `None` stands for null. */
  datatype Option<+T> = None | Some(value: T)

  /** The outcome of a Java call that returns a value or throws. */
  datatype Result<+T, +E> = Success(value: T) | Failure(error: E)
}
