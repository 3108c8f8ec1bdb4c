/**
 * The optional-authentication front door (`OptionalJwtAuthGuard`): requests
 * without an Authorization header pass without verification; with a header
 * the decision is the JWT guard's, and a failed verification leaves the
 * request without a user instead of raising.
 *
 * Token verification itself (passport-jwt) is outside the model: its error
 * flag, the payload it decodes and the base guard's answer are inputs.
 */
module OptionalJwt {
  import opened Common

  /** The payload the JWT strategy attaches to the request. */
  datatype JwtPayload = JwtPayload(id: string)

  /** What the JWT machinery reports for a request that carries a header. */
  datatype Verification = Verification(err: bool, user: Option<JwtPayload>, baseAllows: bool)

  /** `!authHeader`: no header, or the empty string. */
  predicate HeaderAbsent(header: Option<string>) {
    header == None || header == Some("")
  }

  /** `canActivate`: absent header allows; otherwise the base guard decides. */
  function CanActivate(header: Option<string>, v: Verification): (allowed: bool)
    ensures HeaderAbsent(header) ==> allowed
    ensures !HeaderAbsent(header) ==> allowed == v.baseAllows
  {
    if HeaderAbsent(header) then true else v.baseAllows
  }

  /** `handleRequest`: an error or a missing user yields no user, never an exception. */
  function HandleRequest(err: bool, user: Option<JwtPayload>): (r: Option<JwtPayload>)
    ensures r.None? <==> (err || user.None?)
    ensures r.Some? ==> r == user
  {
    if err || user.None? then None else user
  }

  /**
   * The user the request carries afterwards: none when no header was sent
   * (verification never ran), otherwise what `handleRequest` returned.
   */
  function RequestUser(header: Option<string>, v: Verification): (u: Option<JwtPayload>)
    ensures HeaderAbsent(header) ==> u.None?
    ensures u.Some? ==> !v.err && u == v.user
  {
    if HeaderAbsent(header) then None else HandleRequest(v.err, v.user)
  }

  /** With no header, the outcome of verification has no influence at all. */
  lemma AbsentHeaderIgnoresVerification(header: Option<string>, v1: Verification, v2: Verification)
    requires HeaderAbsent(header)
    ensures CanActivate(header, v1) == CanActivate(header, v2) == true
    ensures RequestUser(header, v1) == RequestUser(header, v2) == None
  {
  }

  /** A request with a header and a successfully verified user carries that user unchanged. */
  lemma VerifiedUserKept(header: Option<string>, v: Verification)
    requires !HeaderAbsent(header) && !v.err && v.user.Some?
    ensures RequestUser(header, v) == v.user
  {
  }
}
