/**
 * The authentication controller: login with its directory-then-local fallback,
 * the token response, the current-user lookup, pin generation and account
 * verification by pin. The guard and the token library are oracles.
 */
module AuthController {
  import opened Wrappers
  import opened Http
  import opened Jwt
  import opened Users

  /** What a controller action does: answer with a response, or let an exception escape. */
  datatype Outcome = Respond(response: Response) | Propagate(e: Exception)

  // ---------------------------------------------------------------- login

  /** The fields of a login request: `username`, `password` and what validation returned. */
  datatype LoginRequest = LoginRequest(username: string, password: string, validated: map<string, string>)

  /** The credential array handed to the guard's `attempt`. */
  datatype Credentials = Credentials(fields: map<string, string>)

  /** A login run: its outcome, and the credentials passed to `attempt`, in call order. */
  datatype LoginRun = LoginRun(outcome: Outcome, calls: seq<Credentials>)

  /** The directory (LDAP) credentials, keyed by `samaccountname`. */
  function DirectoryCredentials(req: LoginRequest): Credentials
  {
    Credentials(map["samaccountname" := req.username, "password" := req.password])
  }

  /** The local credentials: the validated request fields as they are. */
  function LocalCredentials(req: LoginRequest): Credentials
  {
    Credentials(req.validated)
  }

  /** The attempt returned, but not a value that counts as a token. */
  predicate Declined(a: Attempt)
  {
    !a.Threw? && !Yields(a)
  }

  const InvalidCredentials: Response := MessageResponse(400, "invalid_credentials")
  const CouldNotCreateToken: Response := JsonResponse(500, JObject([("error", JString("could_not_create_token"))]))

  /** The `expires_in` value: the guard's TTL in minutes as seconds; a null TTL multiplies as 0. */
  function ExpiresIn(ttl: Option<int>): (seconds: int)
    ensures seconds % 60 == 0
    ensures ttl.Some? ==> seconds / 60 == ttl.value
    ensures ttl.None? ==> seconds == 0
  {
    match ttl
    case None => 0
    case Some(minutes) => minutes * 60
  }

  /** `respondWithToken`: the bearer-token response. `user` is PHP's empty array, encoded as `[]`. */
  function RespondWithToken(token: string, ttl: Option<int>): (r: Response)
    ensures StatusOf(r) == 200
    ensures Member(r, "access_token") == Some(JString(token))
    ensures Member(r, "token_type") == Some(JString("bearer"))
    ensures Member(r, "expires_in") == Some(JInt(ExpiresIn(ttl)))
    ensures Member(r, "user") == Some(JList([]))
    ensures r.JsonResponse? && r.body.JObject? && |r.body.fields| == 4
  {
    var fields := [
      ("access_token", JString(token)),
      ("token_type", JString("bearer")),
      ("expires_in", JInt(ExpiresIn(ttl))),
      ("user", JList([]))];
    assert Lookup(fields, "token_type") == Lookup(fields[1..], "token_type");
    assert Lookup(fields, "expires_in") == Lookup(fields[1..][1..], "expires_in");
    assert Lookup(fields[1..], "user") == Lookup(fields[1..][1..][1..], "user");
    JsonResponse(200, JObject(fields))
  }

  /** The `catch (JWTException $e)` clause: library failures become a 500, others escape. */
  function CatchJwt(e: Exception): (o: Outcome)
    ensures o.Respond? <==> IsJwtException(e)
    ensures o.Respond? ==> o.response == CouldNotCreateToken
    ensures o.Propagate? ==> o.e == e
  {
    if IsJwtException(e) then Respond(CouldNotCreateToken) else Propagate(e)
  }

  /**
   * `login`: try the directory credentials; only when that attempt declines,
   * try the local credentials. The last attempt made decides the outcome.
   * The `ttl` is what the guard's token factory reports.
   */
  function Login(req: LoginRequest, attempt: Credentials -> Attempt, ttl: Option<int>): (run: LoginRun)
    ensures 1 <= |run.calls| <= 2 && run.calls[0] == DirectoryCredentials(req)
    ensures |run.calls| == 2 <==> Declined(attempt(DirectoryCredentials(req)))
    ensures |run.calls| == 2 ==> run.calls[1] == LocalCredentials(req)
    ensures var last := attempt(run.calls[|run.calls| - 1]);
      && (Yields(last) ==> run.outcome == Respond(RespondWithToken(last.token, ttl)))
      && (last.Threw? ==> run.outcome == CatchJwt(last.e))
      && (Declined(last) ==> run.outcome == Respond(InvalidCredentials))
  {
    var directory := DirectoryCredentials(req);
    var first := attempt(directory);
    if first.Threw? then LoginRun(CatchJwt(first.e), [directory])
    else if Yields(first) then LoginRun(Respond(RespondWithToken(first.token, ttl)), [directory])
    else
      var local := LocalCredentials(req);
      var second := attempt(local);
      if second.Threw? then LoginRun(CatchJwt(second.e), [directory, local])
      else if Yields(second) then LoginRun(Respond(RespondWithToken(second.token, ttl)), [directory, local])
      else LoginRun(Respond(InvalidCredentials), [directory, local])
  }

  /** A directory token wins, and the local attempt is never made. */
  lemma LoginPrefersDirectory(req: LoginRequest, attempt: Credentials -> Attempt, ttl: Option<int>)
    requires Yields(attempt(DirectoryCredentials(req)))
    ensures Login(req, attempt, ttl).calls == [DirectoryCredentials(req)]
    ensures Login(req, attempt, ttl).outcome
         == Respond(RespondWithToken(attempt(DirectoryCredentials(req)).token, ttl))
  {
  }

  /** The local attempt is made exactly when the directory declines, and its token is returned. */
  lemma LoginFallsBackToLocal(req: LoginRequest, attempt: Credentials -> Attempt, ttl: Option<int>)
    requires Declined(attempt(DirectoryCredentials(req)))
    requires Yields(attempt(LocalCredentials(req)))
    ensures Login(req, attempt, ttl).calls == [DirectoryCredentials(req), LocalCredentials(req)]
    ensures Login(req, attempt, ttl).outcome
         == Respond(RespondWithToken(attempt(LocalCredentials(req)).token, ttl))
  {
  }

  /**
   * When both attempts decline, the answer is the fixed 400; it is the same for
   * every oracle in which both decline, so it tells nothing about which stage failed.
   */
  lemma LoginRejectsUniformly(req: LoginRequest, a1: Credentials -> Attempt, a2: Credentials -> Attempt, ttl: Option<int>)
    requires Declined(a1(DirectoryCredentials(req))) && Declined(a1(LocalCredentials(req)))
    requires Declined(a2(DirectoryCredentials(req))) && Declined(a2(LocalCredentials(req)))
    ensures Login(req, a1, ttl).outcome == Login(req, a2, ttl).outcome == Respond(InvalidCredentials)
  {
  }

  /** A JWTException from whichever attempt was made gives the 500 response; any other exception escapes. */
  lemma LoginCatchesJwtException(req: LoginRequest, attempt: Credentials -> Attempt, ttl: Option<int>, e: Exception)
    requires attempt(DirectoryCredentials(req)) == Threw(e)
          || (Declined(attempt(DirectoryCredentials(req))) && attempt(LocalCredentials(req)) == Threw(e))
    ensures IsJwtException(e) ==> Login(req, attempt, ttl).outcome == Respond(CouldNotCreateToken)
    ensures !IsJwtException(e) ==> Login(req, attempt, ttl).outcome == Propagate(e)
  {
  }

  /**
   * Every run ends in a token response, the 400, the 500 or an escaping
   * non-JWT exception: the statement after the try block is never reached.
   */
  lemma LoginOutcomes(req: LoginRequest, attempt: Credentials -> Attempt, ttl: Option<int>)
    ensures var o := Login(req, attempt, ttl).outcome;
      || (exists c :: c in Login(req, attempt, ttl).calls && Yields(attempt(c))
           && o == Respond(RespondWithToken(attempt(c).token, ttl)))
      || o == Respond(InvalidCredentials)
      || o == Respond(CouldNotCreateToken)
      || (o.Propagate? && !IsJwtException(o.e))
  {
    var run := Login(req, attempt, ttl);
    var last := run.calls[|run.calls| - 1];
    assert last in run.calls;
  }

  // ---------------------------------------------------------------- me

  /**
   * `me`: a user that cannot be found gives 404 `["user_not_found"]`, a found
   * user 200 `{user}`. The catch clauses name classes relative to the
   * controller's namespace, which do not exist, so every exception escapes.
   */
  function Me(auth: AuthOutcome): (o: Outcome)
    ensures auth.Failed? ==> o == Propagate(auth.e)
    ensures auth.Authenticated? ==> o.Respond? && (StatusOf(o.response) == 200 <==> auth.user.Some?)
    ensures auth == Authenticated(None) ==> o == Respond(JsonResponse(404, JList([JString("user_not_found")])))
    ensures auth.Authenticated? && auth.user.Some? ==>
      o == Respond(JsonResponse(200, JObject([("user", auth.user.value)])))
      && Member(o.response, "user") == auth.user
  {
    match auth
    case Failed(e) => Propagate(e)
    case Authenticated(None) => Respond(JsonResponse(404, JList([JString("user_not_found")])))
    case Authenticated(Some(user)) => Respond(JsonResponse(200, JObject([("user", user)])))
  }

  // ---------------------------------------------------------------- pins

  const DefaultPinDigits: nat := 8
  /** 10^18 is the largest power of ten a 64-bit PHP integer holds. */
  const MaxPinDigits: nat := 18
  const PhpIntMax: int := 0x7FFF_FFFF_FFFF_FFFF

  function Pow10(n: nat): (r: nat)
    ensures r >= 1
  {
    if n == 0 then 1 else 10 * Pow10(n - 1)
  }

  lemma {:induction false} Pow10Monotone(a: nat, b: nat)
    requires a <= b
    ensures Pow10(a) <= Pow10(b)
  {
    if a < b {
      Pow10Monotone(a, b - 1);
    }
  }

  /** The number of decimal digits of `n`. */
  function DecimalLength(n: nat): nat
  {
    if n < 10 then 1 else 1 + DecimalLength(n / 10)
  }

  /** `pin` lies in `randomPin(digits)`'s range [10^(digits-1), 10^digits - 1]. */
  predicate InPinRange(pin: int, digits: nat)
  {
    1 <= digits && Pow10(digits - 1) <= pin <= Pow10(digits) - 1
  }

  /** The range holds exactly the numbers with `digits` decimal digits. */
  lemma {:induction false} PinRangeIsDigitCount(n: nat, digits: nat)
    requires digits >= 1
    ensures InPinRange(n, digits) <==> (n >= 1 && DecimalLength(n) == digits)
  {
    if digits > 1 {
      assert Pow10(digits - 1) == 10 * Pow10(digits - 2);
      assert Pow10(digits) == 10 * Pow10(digits - 1);
      if n >= 10 {
        PinRangeIsDigitCount(n / 10, digits - 1);
      }
    }
  }

  /** Every range bound is a PHP integer, and the default range is [10000000, 99999999]. */
  lemma PinBounds(digits: nat)
    requires 1 <= digits <= MaxPinDigits
    ensures Pow10(digits) - 1 <= PhpIntMax
    ensures InPinRange(10000000, DefaultPinDigits) && InPinRange(99999999, DefaultPinDigits)
    ensures forall p :: InPinRange(p, DefaultPinDigits) <==> 10000000 <= p <= 99999999
  {
    Pow10Monotone(digits, MaxPinDigits);
    assert Pow10(MaxPinDigits) == 1_000_000_000_000_000_000;
    assert Pow10(DefaultPinDigits) == 100_000_000;
    assert Pow10(DefaultPinDigits - 1) == 10_000_000;
  }

  /** `randomPin(digits)`: `rand` is modelled as an arbitrary choice within its bounds. */
  method RandomPin(digits: nat) returns (pin: int)
    requires 1 <= digits <= MaxPinDigits
    ensures InPinRange(pin, digits)
  {
    pin :| Pow10(digits - 1) <= pin <= Pow10(digits) - 1;
  }

  // ---------------------------------------------------------------- verify

  /** A request whose `pin` fails the `required` rule: the framework answers 422. */
  const ValidationFailed: Response := Aborted(422)
  const InvalidPin: Response := MessageResponse(500, "auth.invalid_pin")
  /** The JSON resource `{data: {message}}` with the translated `user_verified` text. */
  const UserVerified: Response := JsonResponse(200, JObject([("data", JObject([("message", JTranslated("user_verified"))]))]))

  /** `after` is `before` verified: `verified` set to 1, the token rotated to a fresh 8-digit pin. */
  predicate Rotated(before: UserRow, after: UserRow)
  {
    && after == before.(verifyToken := after.verifyToken, verified := 1)
    && after.verifyToken.Some?
    && InPinRange(after.verifyToken.value, DefaultPinDigits)
  }

  /** The transitions of `verify` on the user table, one request with `pin`. */
  predicate VerifyStep(before: seq<UserRow>, pin: Option<int>, r: Response, after: seq<UserRow>)
  {
    if pin.None? then r == ValidationFailed && after == before
    else match FirstAwaiting(before, pin.value)
      case None => r == InvalidPin && after == before
      case Some(i) =>
        && r == UserVerified
        && |after| == |before|
        && Rotated(before[i], after[i])
        && forall k :: 0 <= k < |before| && k != i ==> after[k] == before[k]
  }

  /** `verify`: look up the first unverified user holding `pin`, verify it and rotate its pin. */
  method Verify(users: UserTable, pin: Option<int>) returns (r: Response)
    modifies users
    ensures VerifyStep(old(users.rows), pin, r, users.rows)
  {
    if pin.None? {
      return ValidationFailed;
    }
    var user := users.FirstAwaitingPin(pin.value);
    if user == null {
      return InvalidPin;
    }
    var newPin := RandomPin(DefaultPinDigits);
    user.verifyToken := Some(newPin);
    user.verified := 1;
    users.Save(user);
    r := UserVerified;
  }

  /** `verify` succeeds exactly when some unverified user holds the pin; otherwise nothing changes. */
  lemma VerifySucceedsIffPinHeld(before: seq<UserRow>, pin: Option<int>, r: Response, after: seq<UserRow>)
    requires VerifyStep(before, pin, r, after)
    ensures r == UserVerified <==> pin.Some? && exists i :: 0 <= i < |before| && AwaitsPin(before[i], pin.value)
    ensures r != UserVerified ==> after == before
    ensures r == InvalidPin <==> pin.Some? && forall i :: 0 <= i < |before| ==> !AwaitsPin(before[i], pin.value)
  {
    if pin.Some? {
      var found := FirstAwaiting(before, pin.value);
      if found.Some? {
        assert AwaitsPin(before[found.value], pin.value);
      }
    }
  }

  /** A successful `verify` turns exactly one unverified user into a verified one. */
  lemma VerifyConsumesOneUnverified(before: seq<UserRow>, pin: Option<int>, after: seq<UserRow>)
    requires VerifyStep(before, pin, UserVerified, after)
    ensures CountUnverified(after) == CountUnverified(before) - 1
  {
    var i := FirstAwaiting(before, pin.value).value;
    assert after == before[i := after[i]];
    CountUnverifiedUpdate(before, i, after[i]);
  }

  /** Verified users are final: no `verify` request changes their row. */
  lemma VerifiedUsersAreFinal(before: seq<UserRow>, pin: Option<int>, r: Response, after: seq<UserRow>)
    requires VerifyStep(before, pin, r, after)
    ensures |after| == |before|
    ensures forall k :: 0 <= k < |before| && !Unverified(before[k]) ==> after[k] == before[k]
  {
  }

  /**
   * Replaying a pin cannot verify the same user again: the verified user no longer
   * awaits any pin, and a second match with the same pin can only be a later row.
   */
  lemma VerifyNoReplay(before: seq<UserRow>, pin: int, after: seq<UserRow>)
    requires VerifyStep(before, Some(pin), UserVerified, after)
    ensures var i := FirstAwaiting(before, pin).value;
      && (forall q :: !AwaitsPin(after[i], q))
      && (FirstAwaiting(after, pin).None? || FirstAwaiting(after, pin).value > i)
  {
    var i := FirstAwaiting(before, pin).value;
    var again := FirstAwaiting(after, pin);
    if again.Some? {
      assert AwaitsPin(after[again.value], pin);
    }
  }

  /** Two unverified users holding the same pin: after the first is verified, the pin still matches. */
  lemma SharedPinStillMatches(before: seq<UserRow>, pin: int, r: Response, after: seq<UserRow>, i: nat, j: nat)
    requires VerifyStep(before, Some(pin), r, after)
    requires i < j < |before| && AwaitsPin(before[i], pin) && AwaitsPin(before[j], pin)
    ensures r == UserVerified
    ensures FirstAwaiting(after, pin).Some? && FirstAwaiting(after, pin) != FirstAwaiting(before, pin)
    ensures AwaitsPin(after[j], pin)
  {
    var first := FirstAwaiting(before, pin).value;
    assert first <= i;
    assert AwaitsPin(after[j], pin);
  }
}
