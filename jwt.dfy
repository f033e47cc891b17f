/**
 * The JWT library's observable behaviour, as oracle outcomes: what a guard's
 * `attempt` returned and what `parseToken()->authenticate()` did.
 */
module Jwt {
  import opened Wrappers
  import opened Http

  /**
   * The exceptions the source distinguishes. In the library TokenInvalidException
   * and TokenExpiredException extend JWTException; OtherJwtException stands for
   * JWTException itself and its other subclasses; NonJwtException for any other
   * Exception.
   */
  datatype Exception =
    | TokenInvalidException
    | TokenExpiredException
    | OtherJwtException
    | NonJwtException

  /** `$e instanceof JWTException` */
  predicate IsJwtException(e: Exception)
  {
    !e.NonJwtException?
  }

  /** A guard `attempt`: a token string, `false`, or a thrown exception. */
  datatype Attempt = Token(token: string) | NoToken | Threw(e: Exception)

  /** PHP truthiness of a string: only "" and "0" are falsy. */
  predicate Truthy(s: string)
    ensures Truthy(s) <==> |s| >= 2 || (|s| == 1 && s[0] != '0')
  {
    s != "" && s != "0"
  }

  /** The attempt's result passes the source's `if ($token = ...)` test. */
  predicate Yields(a: Attempt)
  {
    a.Token? && Truthy(a.token)
  }

  /**
   * `JWTAuth::parseToken()->authenticate()`: either it returns (the user, or
   * `false` when no user is found, as None) or it throws. A user is represented
   * by its JSON serialisation.
   */
  datatype AuthOutcome = Authenticated(user: Option<Json>) | Failed(e: Exception)
}
