/**
 The terminal middleware of the request chain: the unmatched-route fallback,
 which raises a 404 failure, and the error handler's choice of response
 status, `err.status || 500`.
 */
module ErrorHandler {
  import opened Wrappers

  /** A failure as the http-errors helper builds it: a message and an optional numeric status. */
  datatype HttpError = HttpError(message: string, status: Option<int>)

  const NotFoundStatus: int := 404
  const DefaultStatus: int := 500

  /** `createError(404)`: the failure every request that no router handled is turned into. */
  function NotFound(): (e: HttpError)
    ensures e.message == "Not Found"
    ensures StatusOf(e) == NotFoundStatus
  {
    HttpError("Not Found", Some(NotFoundStatus))
  }

  /**
   `err.status || 500`: the failure's own status when it is truthy, 500
   otherwise. A numeric status is falsy exactly when it is missing or 0. The
   chosen status is never 0.
   */
  function StatusOf(err: HttpError): (code: int)
    ensures code != 0
    ensures err.status.Some? && err.status.value != 0 ==> code == err.status.value
    ensures err.status == None || err.status == Some(0) ==> code == DefaultStatus
  {
    match err.status
    case Some(s) => if s != 0 then s else DefaultStatus
    case None => DefaultStatus
  }

  /** A missing status and a zero status are treated alike, both falling back to 500. */
  lemma FalsyStatusFallsBack(m: string)
    ensures StatusOf(HttpError(m, None)) == StatusOf(HttpError(m, Some(0))) == DefaultStatus
  {
  }

  /**
   Writing the chosen code back into the failure and choosing again changes
   nothing: the code the handler sends is a fixed point of the rule.
   */
  lemma StatusOfIsStable(err: HttpError)
    ensures StatusOf(HttpError(err.message, Some(StatusOf(err)))) == StatusOf(err)
  {
  }
}
