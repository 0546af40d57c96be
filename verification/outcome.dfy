/** Outcome types shared by every layer of the task backend: the optional value
    of a lookup, and the three error classes that the exception middleware turns
    into HTTP status codes. */
module Outcome {

  /** A value that may be absent: what `FirstOrDefault` and `FindAsync` return. */
  datatype Option<+T> = None | Some(value: T)

  /** The outcome classes of the request pipeline. A `KeyNotFoundException`
      becomes `NotFound`, an `UnauthorizedAccessException` becomes
      `Unauthorized`, and every other exception becomes `BadRequest`; the
      authentication controller returns the same classes directly. Each carries
      the message the caller sees. */
  datatype Error =
    | NotFound(message: string)
    | Unauthorized(message: string)
    | BadRequest(message: string)

  /** Either the value an operation produced or the error it failed with. */
  datatype Result<+T> = Ok(value: T) | Err(error: Error) {

    predicate IsFailure() {
      Err?
    }

    function PropagateFailure<U>(): Result<U>
      requires Err?
    {
      Err(error)
    }

    function Extract(): T
      requires Ok?
    {
      value
    }
  }

  /** The HTTP status the exception middleware writes for each error class.
      A denied permission check is reported as 401, never as 403. */
  function StatusCode(e: Error): (code: int)
    ensures code == 404 <==> e.NotFound?
    ensures code == 401 <==> e.Unauthorized?
    ensures code == 400 <==> e.BadRequest?
  {
    match e
    case NotFound(_) => 404
    case Unauthorized(_) => 401
    case BadRequest(_) => 400
  }
}
