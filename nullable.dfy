/** Java's null references and the one exception the modelled code can throw. */
module Nullable {

  /** A Java reference that may be null: `None` stands for null. */
  datatype Option<+T> = None | Some(value: T)

  /** The exceptions the modelled code can raise. */
  datatype JavaError = NullPointerException

  /** A computation that either produces a value or throws. */
  datatype Result<+T> = Success(value: T) | Failure(error: JavaError)

  /** A computation without a value that either completes or throws. */
  datatype Outcome = Pass | Fail(error: JavaError)
}
