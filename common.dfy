// The error type of backend/src/errors.ts and the response envelope every
// controller writes: `{ status: 'Success' | 'Failed', data }` with an HTTP
// status code.
module Common {

  datatype Option<T> = None | Some(value: T)

  /** What a service or controller can throw: an `AppError` carrying an HTTP
      status and a message, or any other exception (a store failure, a
      TypeError), which carries nothing the handlers look at. */
  datatype Failure = AppError(status: int, message: string) | Fault

  datatype Result<T> = Ok(value: T) | Err(error: Failure)

  /** What a middleware does with a request: call `next`, or answer with a
      status and a message and stop. */
  datatype Gate = Next | Deny(status: int, message: string)

  datatype Body<T> = Success(data: T) | Failed(message: string)

  datatype Response<T> = Response(status: int, body: Body<T>)

  /** JavaScript truthiness of an optional string field: `undefined` and the
      empty string are falsy, every other string is truthy. */
  predicate Truthy(field: Option<string>)
  {
    field.Some? && field.value != ""
  }

  /** The `catch` block every controller ends with: an `AppError` becomes a
      response with its own status and message, anything else becomes 500
      with the controller's fixed message. */
  function ErrorResponse<T>(f: Failure, internal: string): (resp: Response<T>)
    ensures resp.body.Failed?
    ensures f.AppError? ==> resp.status == f.status && resp.body.message == f.message
    ensures f.Fault? ==> resp == Response(500, Failed(internal))
  {
    match f
    case AppError(status, message) => Response(status, Failed(message))
    case Fault => Response(500, Failed(internal))
  }

  /** A handler's outcome as the response it writes. */
  function Respond<T>(r: Result<T>, okStatus: int, internal: string): (resp: Response<T>)
    ensures r.Ok? ==> resp == Response(okStatus, Success(r.value))
    ensures r.Err? ==> resp == ErrorResponse(r.error, internal)
  {
    match r
    case Ok(v) => Response(okStatus, Success(v))
    case Err(f) => ErrorResponse(f, internal)
  }
}
