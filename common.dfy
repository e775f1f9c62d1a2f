/** Shared result types: the HTTP error taxonomy every handler answers with,
    and the pair (new store, response) a handler produces. */
module Common {

  datatype Option<T> = None | Some(value: T)

  /** The error responses the controllers send; ConflictAt carries the
      interval a 409 echoes back to the client. */
  datatype HttpError =
    | BadRequest
    | Unauthorized
    | NotFound
    | Conflict
    | ConflictAt(start: int, end: int)
    | InternalError

  datatype Result<T> = Ok(value: T) | Err(error: HttpError)

  /** The HTTP status code the Express layer sends for an error. */
  function StatusCode(e: HttpError): (code: int)
    ensures 400 <= code < 600
    ensures code == 409 <==> e.Conflict? || e.ConflictAt?
  {
    match e
    case BadRequest => 400
    case Unauthorized => 401
    case NotFound => 404
    case Conflict => 409
    case ConflictAt(_, _) => 409
    case InternalError => 500
  }

  /** What one request handler leaves behind: the collection after the
      call, and the response. */
  datatype Handled<S, T> = Handled(store: S, result: Result<T>)

  /** A JavaScript value that is present and truthy, for the string fields of
      a request body: `undefined` and `""` are falsy. */
  predicate Truthy(o: Option<string>)
  {
    o.Some? && o.value != ""
  }

  /** `endOfDay.setHours(23, 59, 59, 999)` measured from local midnight. */
  const EndOfDayOffset: int := 23 * 3600000 + 59 * 60000 + 59 * 1000 + 999

  /** The date filter `{ $gte: startOfDay, $lte: endOfDay }` of the day that
      starts at `dayStart`. */
  predicate InDay(t: int, dayStart: int)
  {
    dayStart <= t <= dayStart + EndOfDayOffset
  }
}
