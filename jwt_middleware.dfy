/**
 * The JWT middleware: authenticate the request's token and either hand the
 * request on or answer 403 with a message chosen by the exception's class.
 */
module JwtMiddleware {
  import opened Wrappers
  import opened Http
  import opened Jwt

  const TokenIsInvalid: Response := MessageResponse(403, "Token is Invalid")
  const TokenIsExpired: Response := MessageResponse(403, "Token is Expired")
  const TokenNotFound: Response := MessageResponse(403, "Authorization Token not found")

  /**
   * `handle`: the outcome of `parseToken()->authenticate()` decides. The user it
   * returns is not inspected, so a `false` user still passes.
   */
  function Handle(auth: AuthOutcome): (g: Gate)
    ensures g.Continue? <==> auth.Authenticated?
    ensures g.Reject? ==> StatusOf(g.response) == 403
    ensures g.Reject? ==>
      g.response.JsonResponse? &&
      Member(g.response, "message") in {Some(JString("Token is Invalid")), Some(JString("Token is Expired")),
                                        Some(JString("Authorization Token not found"))}
  {
    match auth
    case Authenticated(_) => Continue
    case Failed(e) =>
      if e.TokenInvalidException? then Reject(TokenIsInvalid)
      else if e.TokenExpiredException? then Reject(TokenIsExpired)
      else Reject(TokenNotFound)
  }

  /** Without an exception the response is exactly the next handler's, whatever user was returned. */
  lemma HandlePassesThrough(user: Option<Json>, next: Response)
    ensures Run(Handle(Authenticated(user)), next) == next
  {
  }

  /** An invalid token is refused with "Token is Invalid", whatever the next handler would answer. */
  lemma HandleRejectsInvalidToken(next: Response)
    ensures Handle(Failed(TokenInvalidException)).Reject?
    ensures Run(Handle(Failed(TokenInvalidException)), next) == TokenIsInvalid
  {
  }

  /** An expired token is refused with "Token is Expired". */
  lemma HandleRejectsExpiredToken(next: Response)
    ensures Handle(Failed(TokenExpiredException)).Reject?
    ensures Run(Handle(Failed(TokenExpiredException)), next) == TokenIsExpired
  {
  }

  /** Every other exception, from the library or not, reads as a missing token. */
  lemma HandleRejectsOtherFailures(e: Exception, next: Response)
    requires !e.TokenInvalidException? && !e.TokenExpiredException?
    ensures Handle(Failed(e)).Reject?
    ensures Run(Handle(Failed(e)), next) == TokenNotFound
  {
  }
}
