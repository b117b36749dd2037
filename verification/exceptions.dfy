/**
 * The exceptions the codec throws, as constructors of one datatype rather than
 * classes: the three Pixelbin error classes, PHP's own TypeError (raised by the
 * runtime for an ill-typed argument) and the plain Exception of AccessEnum.
 */
module Exceptions {
  import opened Wrappers

  datatype Error =
    | InvalidUrl(message: string)
    | IllegalArgument(message: string)
    | IllegalQueryParameter(message: string)
    | TypeError(message: string)
    | PlainException(message: string)

  /** A computation that either returns a `T` or throws an `Error`. */
  type Outcome<T> = Result<T, Error>

  const INVALID_URL_MESSAGE := "Invalid pixelbin url. Please make sure the url is correct."
  const DPR_MESSAGE := "DPR value should be numeric and should be between 0.1 and 5.0"
  const F_AUTO_MESSAGE := "F_auto valie should be boolean"
}
