/**
 * The decisions of `POST /api/auth/login` (src/app/api/auth/login/route.ts),
 * as a function of the user table and the request. The handler that writes
 * the refresh-token row is AuthStore.Store.Login.
 */
module LoginRoute {
  import opened Wrappers
  import opened Json
  import opened JsText
  import opened Password
  import opened Jwt
  import opened UserValidation
  import opened AuthModel
  import Base16

  /** The answer, the refresh-token row to insert (if any), and the bcrypt comparisons made on the way. */
  datatype LoginOutcome = LoginOutcome(response: Response, record: Option<AuthToken>, compares: seq<CompareCall>)

  /** The body as the handler sees it: a read or parse failure becomes null. */
  function LoginBody(read: BodyRead): Value
  {
    if read.JsonBody? then read.value else Null
  }

  /** The key the handler looks the user up by: the schema's email, lower-cased and trimmed once more. */
  function LookupKey(input: LoginInput): string
  {
    NormalizeEmail(input.email)
  }

  /** The verification the handler runs for a user it found. */
  function CheckPassword(deps: Deps, input: LoginInput, user: User): Verification
  {
    VerifyPassword(deps.bcrypt, Str(Trim(input.password)), Str(user.passwordHash))
  }

  /**
   * The early-return chain of the handler: body, schema, lookup, active flag,
   * password, access token, refresh-token write; any throw answers 500.
   */
  function LoginSpec(deps: Deps, users: map<string, User>, read: BodyRead, entropy: seq<Base16.Byte>, now: int, faults: StoreFaults): (r: LoginOutcome)
    requires |entropy| == REFRESH_TOKEN_BYTES
    ensures r.record.Some? <==> r.response.status == 200
    ensures r.response.status == 401 ==> r.response == INVALID_CREDENTIALS
    ensures r.response.status == 200 ==> r.response.data.LoginData? && r.response.errors.None?
    ensures |r.compares| <= 1
  {
    var body := LoginBody(read);
    if !Truthy(body) then LoginOutcome(INVALID_JSON, None, [])
    else LoginParsed(deps, users, ParseLogin(deps.isEmail, body), entropy, now, faults)
  }

  /** The chain from the schema's verdict to the lookup. */
  function LoginParsed(deps: Deps, users: map<string, User>, parsed: Parse<LoginInput>, entropy: seq<Base16.Byte>, now: int, faults: StoreFaults): (r: LoginOutcome)
    requires |entropy| == REFRESH_TOKEN_BYTES
    ensures r.record.Some? <==> r.response.status == 200
    ensures r.response.status == 401 ==> r.response == INVALID_CREDENTIALS
    ensures r.response.status == 200 ==> r.response.data.LoginData? && r.response.errors.None?
    ensures |r.compares| <= 1
  {
    match parsed
    case Rejected(issues) => LoginOutcome(ValidationFailed(FlattenFieldErrors(issues)), None, [])
    case Parsed(input) =>
      var email := LookupKey(input);
      if faults.lookupFails then LoginOutcome(LOGIN_FAILED, None, [])
      else if email !in users then LoginOutcome(INVALID_CREDENTIALS, None, [])
      else LoginAs(deps, users[email], input, entropy, now, faults)
  }

  /** The chain once the user is found: active flag, password, access token, refresh-token write. */
  function LoginAs(deps: Deps, user: User, input: LoginInput, entropy: seq<Base16.Byte>, now: int, faults: StoreFaults): (r: LoginOutcome)
    requires |entropy| == REFRESH_TOKEN_BYTES
    ensures r.record.Some? <==> r.response.status == 200
    ensures r.response.status == 401 ==> r.response == INVALID_CREDENTIALS
    ensures r.response.status == 200 ==> r.response.data.LoginData? && r.response.errors.None?
    ensures r.record.Some? ==> r.record.value.userId == user.id && r.response.data.user == LoginView(user)
    ensures r.record.Some? ==> user.isActive && GenerateAccessToken(deps.env, deps.jwt, now, user.id, user.email, user.role).Ok?
    ensures |r.compares| <= 1
  {
    if !user.isActive then LoginOutcome(DEACTIVATED, None, [])
    else
      var verification := CheckPassword(deps, input, user);
      if !verification.matched then LoginOutcome(INVALID_CREDENTIALS, None, verification.compares)
      else
        match GenerateAccessToken(deps.env, deps.jwt, now, user.id, user.email, user.role)
        case Err(_) => LoginOutcome(LOGIN_FAILED, None, verification.compares)
        case Ok(accessToken) =>
          var refreshToken := GenerateRefreshToken(entropy);
          if faults.writeFails then LoginOutcome(LOGIN_FAILED, None, verification.compares)
          else
            LoginOutcome(
              Response(200, LOGIN_SUCCESSFUL, None, LoginData(accessToken, refreshToken, LoginView(user))),
              Some(AuthToken(refreshToken, user.id, RefreshTokenExpiry(deps.env, now))),
              verification.compares)
  }

  /** The second normalisation in the handler changes nothing: the lookup key is the schema's email. */
  lemma LookupKeyIsSchemaEmail(isEmail: string -> bool, body: Value)
    requires ParseLogin(isEmail, body).Parsed?
    ensures LookupKey(ParseLogin(isEmail, body).data) == ParseLogin(isEmail, body).data.email
  {
    LoginSchemaMeaning(isEmail, body);
    NormalizeEmailIdempotent(Get(body.fields, "email").s);
  }

  /** The password the handler trims is trimmed again by verifyPassword, to the same string. */
  lemma PasswordTrimmedOnce(deps: Deps, input: LoginInput, user: User)
    ensures CheckPassword(deps, input, user).compares[0].plaintext == Trim(input.password)
  {
    TrimIdempotent(input.password);
  }

  /** A missing, unreadable or falsy body answers 400 before the table is read or written. */
  lemma LoginRejectsBadBody(deps: Deps, users: map<string, User>, other: map<string, User>, read: BodyRead, entropy: seq<Base16.Byte>, now: int, faults: StoreFaults)
    requires |entropy| == REFRESH_TOKEN_BYTES
    requires !Truthy(LoginBody(read))
    ensures LoginSpec(deps, users, read, entropy, now, faults) == LoginOutcome(INVALID_JSON, None, [])
    ensures LoginSpec(deps, users, read, entropy, now, faults) == LoginSpec(deps, other, read, entropy, now, faults)
  {
  }

  /** A body the schema refuses answers 400 with zod's field errors, whatever the table holds. */
  lemma LoginRejectsInvalidInput(deps: Deps, users: map<string, User>, other: map<string, User>, read: BodyRead, entropy: seq<Base16.Byte>, now: int, faults: StoreFaults)
    requires |entropy| == REFRESH_TOKEN_BYTES
    requires Truthy(LoginBody(read)) && ParseLogin(deps.isEmail, LoginBody(read)).Rejected?
    ensures var issues := ParseLogin(deps.isEmail, LoginBody(read)).issues;
      LoginSpec(deps, users, read, entropy, now, faults) == LoginOutcome(ValidationFailed(FlattenFieldErrors(issues)), None, [])
    ensures LoginSpec(deps, users, read, entropy, now, faults) == LoginSpec(deps, other, read, entropy, now, faults)
  {
  }

  /** The input reaches the lookup: the body passes the schema and the lookup does not throw. */
  ghost predicate ReachesLookup(deps: Deps, read: BodyRead, faults: StoreFaults)
  {
    Truthy(LoginBody(read)) && ParseLogin(deps.isEmail, LoginBody(read)).Parsed? && !faults.lookupFails
  }

  function KeyOf(deps: Deps, read: BodyRead): string
    requires Truthy(LoginBody(read)) && ParseLogin(deps.isEmail, LoginBody(read)).Parsed?
  {
    LookupKey(ParseLogin(deps.isEmail, LoginBody(read)).data)
  }

  /** An unknown email answers the generic 401, writes nothing and never calls bcrypt. */
  lemma LoginUnknownEmail(deps: Deps, users: map<string, User>, read: BodyRead, entropy: seq<Base16.Byte>, now: int, faults: StoreFaults)
    requires |entropy| == REFRESH_TOKEN_BYTES
    requires ReachesLookup(deps, read, faults) && KeyOf(deps, read) !in users
    ensures LoginSpec(deps, users, read, entropy, now, faults) == LoginOutcome(INVALID_CREDENTIALS, None, [])
  {
  }

  /**
   * A deactivated account answers 403 before its password is looked at:
   * the outcome is the same whatever bcrypt would say, so a wrong password also gets 403.
   */
  lemma LoginDeactivatedBeforePassword(deps: Deps, other: Bcrypt, users: map<string, User>, read: BodyRead, entropy: seq<Base16.Byte>, now: int, faults: StoreFaults)
    requires |entropy| == REFRESH_TOKEN_BYTES
    requires ReachesLookup(deps, read, faults) && KeyOf(deps, read) in users && !users[KeyOf(deps, read)].isActive
    ensures LoginSpec(deps, users, read, entropy, now, faults) == LoginOutcome(DEACTIVATED, None, [])
    ensures LoginSpec(deps.(bcrypt := other), users, read, entropy, now, faults) == LoginSpec(deps, users, read, entropy, now, faults)
  {
  }

  /** A wrong password for an active account answers the generic 401 after exactly one comparison, and writes nothing. */
  lemma LoginWrongPassword(deps: Deps, users: map<string, User>, read: BodyRead, entropy: seq<Base16.Byte>, now: int, faults: StoreFaults)
    requires |entropy| == REFRESH_TOKEN_BYTES
    requires ReachesLookup(deps, read, faults)
    requires var key := KeyOf(deps, read);
      key in users && users[key].isActive &&
      !CheckPassword(deps, ParseLogin(deps.isEmail, LoginBody(read)).data, users[key]).matched
    ensures var r := LoginSpec(deps, users, read, entropy, now, faults);
      r.response == INVALID_CREDENTIALS && r.record.None? && |r.compares| == 1
  {
  }

  /**
   * Enumeration resistance: an unknown email and a wrong password for an
   * existing active account give the same response and both write nothing.
   */
  lemma LoginIndistinguishableFailures(deps: Deps, users: map<string, User>, unknown: BodyRead, wrong: BodyRead, entropy: seq<Base16.Byte>, now: int, faults: StoreFaults)
    requires |entropy| == REFRESH_TOKEN_BYTES
    requires ReachesLookup(deps, unknown, faults) && KeyOf(deps, unknown) !in users
    requires ReachesLookup(deps, wrong, faults)
    requires var key := KeyOf(deps, wrong);
      key in users && users[key].isActive &&
      !CheckPassword(deps, ParseLogin(deps.isEmail, LoginBody(wrong)).data, users[key]).matched
    ensures LoginSpec(deps, users, unknown, entropy, now, faults).response == LoginSpec(deps, users, wrong, entropy, now, faults).response
    ensures LoginSpec(deps, users, unknown, entropy, now, faults).record.None?
    ensures LoginSpec(deps, users, wrong, entropy, now, faults).record.None?
  {
    LoginUnknownEmail(deps, users, unknown, entropy, now, faults);
    LoginWrongPassword(deps, users, wrong, entropy, now, faults);
  }

  /**
   * A correct password for an active account, a well-formed configuration and
   * a working table: 200 with both tokens and the user without its hash, and
   * exactly one refresh-token row for that user, expiring per the refresh setting.
   */
  lemma LoginSucceeds(deps: Deps, users: map<string, User>, read: BodyRead, entropy: seq<Base16.Byte>, now: int, faults: StoreFaults)
    requires |entropy| == REFRESH_TOKEN_BYTES
    requires ReachesLookup(deps, read, faults) && !faults.writeFails
    requires var key := KeyOf(deps, read);
      key in users && users[key].isActive &&
      CheckPassword(deps, ParseLogin(deps.isEmail, LoginBody(read)).data, users[key]).matched
    requires AccessTokenExpiresIn(deps.env).Ok? && AccessTokenSecret(deps.env).Ok?
    ensures var user := users[KeyOf(deps, read)];
      var r := LoginSpec(deps, users, read, entropy, now, faults);
      var access := GenerateAccessToken(deps.env, deps.jwt, now, user.id, user.email, user.role);
      && r.response == Response(200, LOGIN_SUCCESSFUL, None, LoginData(access.value, GenerateRefreshToken(entropy), LoginView(user)))
      && r.record == Some(AuthToken(GenerateRefreshToken(entropy), user.id, RefreshTokenExpiry(deps.env, now)))
      && |r.compares| == 1
  {
  }

  /**
   * A configuration error in access-token issue never yields 200 or a
   * refresh-token row; once the password has matched it answers the generic 500.
   */
  lemma LoginConfigErrorWritesNothing(deps: Deps, users: map<string, User>, read: BodyRead, entropy: seq<Base16.Byte>, now: int, faults: StoreFaults)
    requires |entropy| == REFRESH_TOKEN_BYTES
    requires AccessTokenExpiresIn(deps.env).Err? || AccessTokenSecret(deps.env).Err?
    ensures var r := LoginSpec(deps, users, read, entropy, now, faults);
      r.record.None? && r.response.status != 200
    ensures PasswordMatches(deps, users, read, faults) ==>
      LoginSpec(deps, users, read, entropy, now, faults).response == LOGIN_FAILED
  {
    var body := LoginBody(read);
    if Truthy(body) && ParseLogin(deps.isEmail, body).Parsed? {
      var input := ParseLogin(deps.isEmail, body).data;
      var email := LookupKey(input);
      if !faults.lookupFails && email in users {
        var user := users[email];
        assert GenerateAccessToken(deps.env, deps.jwt, now, user.id, user.email, user.role).Err?;
      }
    }
  }

  /** The lookup succeeds and finds an active account whose password matches. */
  ghost predicate PasswordMatches(deps: Deps, users: map<string, User>, read: BodyRead, faults: StoreFaults)
  {
    && ReachesLookup(deps, read, faults)
    && KeyOf(deps, read) in users && users[KeyOf(deps, read)].isActive
    && CheckPassword(deps, ParseLogin(deps.isEmail, LoginBody(read)).data, users[KeyOf(deps, read)]).matched
  }

  /** A lookup that throws answers the generic 500, before bcrypt is consulted, and writes nothing. */
  lemma LoginLookupFault(deps: Deps, users: map<string, User>, read: BodyRead, entropy: seq<Base16.Byte>, now: int, faults: StoreFaults)
    requires |entropy| == REFRESH_TOKEN_BYTES
    requires Truthy(LoginBody(read)) && ParseLogin(deps.isEmail, LoginBody(read)).Parsed? && faults.lookupFails
    ensures LoginSpec(deps, users, read, entropy, now, faults) == LoginOutcome(LOGIN_FAILED, None, [])
  {
  }

  /**
   * An insert of the refresh-token row that throws answers the generic 500
   * even though the password matched and the access token was issued.
   */
  lemma LoginWriteFault(deps: Deps, users: map<string, User>, read: BodyRead, entropy: seq<Base16.Byte>, now: int, faults: StoreFaults)
    requires |entropy| == REFRESH_TOKEN_BYTES
    requires PasswordMatches(deps, users, read, faults) && faults.writeFails
    ensures var r := LoginSpec(deps, users, read, entropy, now, faults);
      r.response == LOGIN_FAILED && r.record.None? && |r.compares| == 1
  {
    var input := ParseLogin(deps.isEmail, LoginBody(read)).data;
    var user := users[KeyOf(deps, read)];
    assert LoginSpec(deps, users, read, entropy, now, faults) == LoginAs(deps, user, input, entropy, now, faults);
  }
}
