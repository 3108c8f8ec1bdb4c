/**
 * Shared vocabulary of the blog server model: optional values, results, and
 * the HTTP exceptions the services throw (each `throw new XxxException` in
 * the services becomes an `Err` carrying one of these).
 */
module Common {

  datatype Option<+T> = None | Some(value: T)

  datatype Result<+T, +E> = Ok(value: T) | Err(error: E)

  /** The exception classes the services raise. */
  datatype HttpError =
    | BadRequest
    | Unauthorized
    | Forbidden
    | NotFound
    | Conflict
    | InternalServerError

  /** What a service body can raise: one of its own HTTP exceptions, or anything else. */
  datatype Raised = Thrown(error: HttpError) | Unexpected

  /**
   * The catch block shared by `updateUserRole` and the comment service's
   * `handleError`: NotFound and BadRequest are rethrown unchanged, anything
   * else becomes InternalServerError.
   */
  function Rethrow(raised: Raised): (r: HttpError)
    ensures raised.Thrown? && raised.error in {NotFound, BadRequest} ==> r == raised.error
    ensures !(raised.Thrown? && raised.error in {NotFound, BadRequest}) ==> r == InternalServerError
  {
    match raised
    case Thrown(e) => if e == NotFound || e == BadRequest then e else InternalServerError
    case Unexpected => InternalServerError
  }

  /** Rethrowing twice is rethrowing once: the mapping is idempotent. */
  lemma RethrowIdempotent(raised: Raised)
    ensures Rethrow(Thrown(Rethrow(raised))) == Rethrow(raised)
  {
  }
}
