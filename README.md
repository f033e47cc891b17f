# nova-rest-api authentication core, modelled in Dafny

This project models the decision and state logic of the plugin's REST
authentication surface:

- the login action, which falls back in a fixed order from a directory attempt
  keyed by `samaccountname` to a local attempt;
- the bearer-token response;
- the current-user action;
- pin generation, and account verification by pin over the user table;
- the JWT middleware, which maps the token check to "continue" or a 403;
- the tool authorisation middleware, which finds the first registered tool of
  the package and lets it decide.

The JWT library, the auth guard (with its LDAP lookup) and the ORM are not
reimplemented. They appear as oracle outcomes:

- a guard `attempt` is `Token(t) | NoToken | Threw(e)`;
- `parseToken()->authenticate()` is `Authenticated(user) | Failed(e)`;
- the token factory's TTL is a parameter;
- `rand` is an arbitrary choice within its bounds;
- a tool's `authorize` is a function parameter.

Exceptions are the classes the source tells apart: `TokenInvalidException`,
`TokenExpiredException`, any other `JWTException`, and any other `Exception`.

Modules:

- `Wrappers`, `Http`: option type, JSON values, responses, middleware gates.
- `Collections`: find-first, the `first(callback)` used by `Authorize` and the
  query's `->first()`.
- `Jwt`: the library's outcomes, including PHP truthiness of the returned token.
- `Users`: the user row; the loaded `UserModel`, whose fields `verify` assigns;
  the `UserTable` that the query reads and `save()` writes.
- `AuthController`, `JwtMiddleware`, `Authorize`: one module per source file.

`verify` is imperative: `AuthController.Verify` loads the first matching
`UserModel`, assigns `verifyToken` and `verified`, and calls
`UserTable.Save`. Its contract is the transition relation
`AuthController.VerifyStep`. The lemmas beside it prove what follows from that
relation: the row count, the frame, and that a pin cannot be replayed on the
same user. Everything else is pure functions over the oracle outcomes.

Three behaviours of the code that a reader might not expect:

- A pin might be expected to be single-use; it is not. Two unverified users
  holding the same pin can each be verified with it (`SharedPinStillMatches`).
  The code only guarantees that the same user is not verified twice.
- `me` might be expected to answer `token_expired`, `token_invalid` or
  `token_absent`; it never does. Its catch clauses name classes relative to the
  controller's namespace, which do not exist, so every library exception
  escapes `me` to the framework's exception handler (`Me`).
- The token response always carries `"user": []`. PHP encodes an empty array as
  a list, not as an object.

## Model

| member | source | states |
|---|---|---|
| Collections.FirstIndex | src/Http/Middleware/Authorize.php:19 | the index found satisfies the predicate and no earlier element does; None exactly when no element satisfies it |
| Collections.FirstIndexIgnoresSuffix | src/Http/Middleware/Authorize.php:19 | once a match exists, appending elements does not change the first match |
| Users.FirstAwaiting | src/Http/Controllers/AuthController.php:186-188 | the row returned by the query is unverified and holds the pin, and no earlier row is; None exactly when no row qualifies |
| Users.CountUnverifiedUpdate | src/Http/Controllers/AuthController.php:194-196 | replacing one row changes the unverified count by exactly that row's before/after contribution |
| Users.UserModel.Load | src/Http/Controllers/AuthController.php:186-188 | a loaded model carries the row's key and exactly its attributes |
| Users.UserTable.FirstAwaitingPin | src/Http/Controllers/AuthController.php:186-188 | returns null exactly when no unverified user holds the pin, else a fresh model of the first such row |
| Users.UserTable.Save | src/Http/Controllers/AuthController.php:196 | the model's attributes replace its own row and every other row is unchanged |
| Jwt.Truthy | src/Http/Controllers/AuthController.php:47-49 | definition used by `Login`'s contract: the `if ($token = ...)` test accepts a token string exactly when it has two or more characters, or one character other than '0' |
| AuthController.Login | src/Http/Controllers/AuthController.php:36-59 | the directory credentials are tried first; the local credentials are tried exactly when that attempt declines; the last attempt made decides the outcome (token response, 400, or the JWT catch) |
| AuthController.LoginPrefersDirectory | src/Http/Controllers/AuthController.php:41-48 | a directory token is returned and the local attempt is never made |
| AuthController.LoginFallsBackToLocal | src/Http/Controllers/AuthController.php:49-50 | after a declined directory attempt, both attempts are made in order and the local token is returned |
| AuthController.LoginRejectsUniformly | src/Http/Controllers/AuthController.php:51-52 | when both attempts decline, every such oracle gets the same 400 `{message: invalid_credentials}` |
| AuthController.LoginCatchesJwtException | src/Http/Controllers/AuthController.php:54-56 | a JWTException from whichever attempt was made gives 500 `{error: could_not_create_token}`; other exceptions escape |
| AuthController.LoginOutcomes | src/Http/Controllers/AuthController.php:46-58 | every run ends in a token from an attempt made, the 400, the 500 or an escaping non-JWT exception, so the trailing return is unreachable |
| AuthController.ExpiresIn | src/Http/Controllers/AuthController.php:74 | definition used by `RespondWithToken`'s contract: the value is a whole number of minutes in seconds: divisible by 60, with the TTL as quotient; 0 for a null TTL |
| AuthController.RespondWithToken | src/Http/Controllers/AuthController.php:67-77 | status 200; `access_token` is the token, `token_type` is "bearer", `expires_in` is `ExpiresIn(ttl)` (the TTL in minutes as seconds, 0 for a null TTL), `user` is the empty list, and the object has exactly these four members |
| AuthController.Me | src/Http/Controllers/AuthController.php:98-113 | a missing user gives exactly 404 `["user_not_found"]`, a found user exactly 200 `{user}`, and every exception escapes |
| AuthController.PinRangeIsDigitCount | src/Http/Controllers/AuthController.php:168-171 | a number is in `randomPin(d)`'s range exactly when it has d decimal digits |
| AuthController.PinBounds | src/Http/Controllers/AuthController.php:168-171 | the bounds fit a 64-bit PHP integer for up to 18 digits; the default range is exactly [10000000, 99999999] |
| AuthController.RandomPin | src/Http/Controllers/AuthController.php:168-171 | the pin lies in [10^(digits-1), 10^digits - 1] |
| AuthController.Verify | src/Http/Controllers/AuthController.php:180-199 | the table and response follow `VerifyStep`: a missing pin gives 422; no match gives 500 `auth.invalid_pin` with the table unchanged; otherwise only the first match is set verified and gets a fresh 8-digit pin |
| AuthController.VerifySucceedsIffPinHeld | src/Http/Controllers/AuthController.php:186-192 | success exactly when some unverified user holds the pin; `auth.invalid_pin` exactly when none does; any failure leaves the table as it was |
| AuthController.VerifyConsumesOneUnverified | src/Http/Controllers/AuthController.php:186-196 | a successful verify lowers the number of unverified users by exactly one |
| AuthController.VerifiedUsersAreFinal | src/Http/Controllers/AuthController.php:186-196 | no request changes a verified user's row, so Verified never goes back to Unverified |
| AuthController.VerifyNoReplay | src/Http/Controllers/AuthController.php:186-196 | after success the verified user awaits no pin; a replay of the same pin can only match a later row |
| AuthController.SharedPinStillMatches | src/Http/Controllers/AuthController.php:186-188 | with two unverified holders of a pin, the first verify succeeds and the pin still matches the other holder's row, which is not the row the pin matched before |
| JwtMiddleware.Handle | src/Http/Middleware/JwtMiddleware.php:12-27 | continues exactly when authenticate() did not throw; every rejection is a 403 with one of the three messages |
| JwtMiddleware.HandlePassesThrough | src/Http/Middleware/JwtMiddleware.php:14-26 | without an exception the response is exactly the next handler's, even when the user is false |
| JwtMiddleware.HandleRejectsInvalidToken | src/Http/Middleware/JwtMiddleware.php:16-18 | TokenInvalidException gives 403 "Token is Invalid", independent of the next handler |
| JwtMiddleware.HandleRejectsExpiredToken | src/Http/Middleware/JwtMiddleware.php:19-20 | TokenExpiredException gives 403 "Token is Expired", independent of the next handler |
| JwtMiddleware.HandleRejectsOtherFailures | src/Http/Middleware/JwtMiddleware.php:21-22 | any other exception gives 403 "Authorization Token not found" |
| Authorize.InstanceOfIsReachable | src/Http/Middleware/Authorize.php:32 | the `instanceof` walk up the parent chain succeeds exactly when the class name is reachable from the tool's class along the parent relation |
| Authorize.MatchesTool | src/Http/Middleware/Authorize.php:30-33 | holds exactly when the package's tool class is reachable from the tool's class along the parent relation |
| Authorize.PackageTool | src/Http/Middleware/Authorize.php:19 | the position found holds a matching tool and no earlier tool matches; None exactly when no registered tool matches |
| Authorize.Handle | src/Http/Middleware/Authorize.php:17-22 | continues exactly when some package tool exists and the first one authorises the request; otherwise 403 |
| Authorize.HandleWithoutPackageTool | src/Http/Middleware/Authorize.php:19-21 | with no package tool registered the answer is 403 and the next handler is not used |
| Authorize.HandleFollowsFirstTool | src/Http/Middleware/Authorize.php:21 | the first package tool's authorize decides between the next handler's response and 403 |
| Authorize.HandleConsultsOnlyFirstTool | src/Http/Middleware/Authorize.php:19-21 | two authorize oracles that agree on the first package tool give the same answer |
| Authorize.HandleIgnoresLaterTools | src/Http/Middleware/Authorize.php:19 | tools registered after the first package tool have no effect |

## Left out

- The JWT library (signing, parsing, `refresh`, the token factory) is left out: it is foreign code. Its results are oracle outcomes.
- The auth guard's `attempt` and its LDAP lookup are left out: they are foreign code and a network protocol. They are an oracle over the credential arrays.
- The ORM is reduced to a sequence of rows with a find-first query and a whole-row save. The query's row order stands for the database's unspecified order without `orderBy`.
- `rand` is left out: only its range is modelled, as an arbitrary choice.
- `register`, `refresh`, `logout`, `passwordChange` and `requestPasswordChange` are left out. They are constant responses or one-line delegations to the library. `passwordChange` always answers 404 and takes no pin.
- In `verify`, `User` is not imported, and `__auth` is not defined in these files and is not a Laravel helper. Both are modelled as the user table and an opaque translated message (`JTranslated("user_verified")`).
- The rules of `LoginRequest` are left out because that class is not part of this model. `username` and `password` are taken to be present strings.
- The request's `pin` is modelled as an integer, or absent. Comparing a string pin with the integer column is left to the database and is not modelled.
- AuthController.Verify: a request without `pin` always gives 422. Laravel answers 422 only when the request expects JSON and otherwise redirects back; the redirect is not modelled.
- AuthController.Verify: `save()` also writes the `updated_at` timestamp. Timestamps are not columns of the model, so `Rotated` says every other column keeps its value.
- JwtMiddleware.Handle: every failure of `authenticate()` gives a 403. The source catches only `Exception`, so a PHP `Error` thrown there escapes the middleware instead. Errors are not part of the exception model.
- Interfaces are left out of `instanceof`: a tool's class is modelled by its parent chain only. The definition of `NovaRestApi` is not among these files; it is taken to be a class (a Nova tool, per the `@param \Laravel\Nova\Tool` at src/Http/Middleware/Authorize.php:27), so interfaces are not modelled.
- The bodies of `abort(403)` and of a failed `required` validation are left out: the framework's exception handler renders them. Both are `Aborted(status)`.
- `Auth::user()` in `respondWithToken` is left out: its result is unused.
- Exceptions thrown inside `respondWithToken` are left out: they are library behaviour.
- PHP integer overflow in `getTTL() * 60` (which would turn the result into a float) is not modelled. TTLs are unbounded integers.
- AuthController.RandomPin: requires 1 to 18 digits. Below 1, `pow` returns a float. Above 18, 10^digits no longer fits a PHP integer. The source only calls it with 8.
- AuthController.Me: the status codes of the library exceptions are not modelled. The catch clauses that would use them never match.
- Route files and the service provider (route registration, middleware aliases, Nova hooks) are left out: they are configuration.
- Concurrency is left out. `verify` reads and then writes without a lock; it is modelled as one sequential step.
