/** Result types shared by all modules. */
module Basics {

  datatype Option<+T> = None | Some(value: T)

  /** What a remote API answers. `NotFound` is HTTP 404, `Unprocessable` is HTTP 422. */
  datatype ApiError = NotFound | Unprocessable | Failure

  datatype Reply<+T> = Ok(value: T) | Err(error: ApiError)

  /** The errors that the controller's own code returns. */
  datatype Error =
    | ErrNotFound
    | ErrNoAddressFound
    | ErrMultipleResults
    | ErrIPv6SupportDisabled
    | ErrInvalid
    | ErrApi(cause: ApiError)
    | ErrTimeout
    | ErrStatus

  datatype Result<+T> = Success(value: T) | Fail(error: Error)

  function Min(a: int, b: int): int { if a <= b then a else b }

  function Max(a: int, b: int): int { if a <= b then b else a }
}
