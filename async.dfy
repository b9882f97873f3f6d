/** Result wrappers for the asynchronous values the insult service passes
    around: Vert.x's AsyncResult, RxJava's Maybe, and the exceptions that
    travel inside them. */
module Async {

  /** A value that may be missing; for a JSON key, None means the key is absent. */
  datatype Option<+T> = None | Some(value: T)

  /** The exceptions that reach a result handler in this model. */
  datatype Throwable =
    | ClientException(message: string)      // `new Exception(message)` built from an HTTP error
    | IndexOutOfBounds(index: int)          // reading a JSON array past its end
    | UpstreamFailure(description: string)  // a cause produced outside the modelled core

  /** Vert.x AsyncResult / Future: either succeeded with a value or failed with a cause. */
  datatype AsyncResult<+T> = Succeeded(value: T) | Failed(cause: Throwable)

  /** RxJava Maybe as used here: a single value or an error signal. */
  datatype Maybe<+T> = Just(value: T) | Error(cause: Throwable)
}
