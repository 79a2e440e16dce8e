/**
 * The two tables the handlers touch — users (keyed by their unique email) and
 * refresh tokens — and the handlers as methods that update them in place.
 * The database client (src/lib/prisma.ts) is not part of this model: a
 * lookup or insert that throws is the StoreFaults parameter.
 */
module AuthStore {
  import opened Wrappers
  import opened Json
  import opened JsText
  import opened Password
  import opened Jwt
  import opened UserValidation
  import opened AuthModel
  import opened LoginRoute
  import opened RegisterRoute
  import Base16

  class Store {
    var users: map<string, User>
    var authTokens: seq<AuthToken>

    /** Every user row sits under its own email, the column's unique key. */
    ghost predicate Valid()
      reads this
    {
      KeyedByEmail(users)
    }

    constructor ()
      ensures Valid()
      ensures users == map[] && authTokens == []
    {
      users := map[];
      authTokens := [];
    }

    /**
     * `POST /api/auth/login`: answers as LoginSpec says, appends the refresh-token
     * row LoginSpec produces (if any), and leaves the user table alone.
     */
    method Login(deps: Deps, read: BodyRead, entropy: seq<Base16.Byte>, now: int, faults: StoreFaults)
      returns (response: Response, compares: seq<CompareCall>)
      requires Valid() && |entropy| == REFRESH_TOKEN_BYTES
      modifies this
      ensures Valid() && users == old(users)
      ensures var outcome := LoginSpec(deps, old(users), read, entropy, now, faults);
        && response == outcome.response
        && compares == outcome.compares
        && authTokens == old(authTokens) + (if outcome.record.Some? then [outcome.record.value] else [])
    {
      var body := LoginBody(read);
      if !Truthy(body) {
        return INVALID_JSON, [];
      }
      var validation := ParseLogin(deps.isEmail, body);
      assert LoginSpec(deps, users, read, entropy, now, faults) == LoginParsed(deps, users, validation, entropy, now, faults);
      if validation.Rejected? {
        return ValidationFailed(FlattenFieldErrors(validation.issues)), [];
      }
      var email := LookupKey(validation.data);
      if faults.lookupFails {
        return LOGIN_FAILED, [];
      }
      if email !in users {
        return INVALID_CREDENTIALS, [];
      }
      var user := users[email];
      assert LoginParsed(deps, users, validation, entropy, now, faults) == LoginAs(deps, user, validation.data, entropy, now, faults);
      if !user.isActive {
        return DEACTIVATED, [];
      }
      var verification := CheckPassword(deps, validation.data, user);
      if !verification.matched {
        return INVALID_CREDENTIALS, verification.compares;
      }
      var accessToken := GenerateAccessToken(deps.env, deps.jwt, now, user.id, user.email, user.role);
      if accessToken.Err? {
        return LOGIN_FAILED, verification.compares;
      }
      var refreshToken := GenerateRefreshToken(entropy);
      var expiresAt := RefreshTokenExpiration(deps.env, now);
      if faults.writeFails {
        return LOGIN_FAILED, verification.compares;
      }
      authTokens := authTokens + [AuthToken(refreshToken, user.id, expiresAt)];
      response := Response(200, LOGIN_SUCCESSFUL, None, LoginData(accessToken.value, refreshToken, LoginView(user)));
      compares := verification.compares;
    }

    /**
     * `POST /api/auth/register`: answers as RegisterSpec says, inserts the user
     * RegisterSpec creates (if any) under its email, keeps the table keyed by
     * email, and leaves the refresh tokens alone.
     */
    method Register(deps: Deps, read: BodyRead, salt: nat, id: string, now: int, faults: StoreFaults)
      returns (response: Response)
      requires Valid()
      modifies this
      ensures Valid()
      ensures authTokens == old(authTokens)
      ensures var outcome := RegisterSpec(deps, old(users), read, salt, id, now, faults);
        && response == outcome.response
        && users == (if outcome.created.Some? then old(users)[outcome.created.value.email := outcome.created.value] else old(users))
    {
      if read.OtherReadError? {
        return REGISTRATION_FAILED;
      }
      var body := if read.JsonBody? then read.value else Null;
      if !Truthy(body) || TypeOf(body) != "object" {
        return INVALID_JSON;
      }
      var validation := ParseRegister(deps.isEmail, body);
      assert RegisterSpec(deps, users, read, salt, id, now, faults) == RegisterParsed(deps, users, validation, salt, id, now, faults);
      if validation.Rejected? {
        var errors := GroupIssues(validation.issues);
        return ValidationFailed(errors);
      }
      response := InsertUser(deps, validation.data, salt, id, now, faults);
    }

    /**
     * The rest of `POST /api/auth/register` once the schema accepted the body:
     * duplicate check, hashing, insert.
     */
    method InsertUser(deps: Deps, input: RegisterInput, salt: nat, id: string, now: int, faults: StoreFaults)
      returns (response: Response)
      requires Valid()
      modifies this
      ensures Valid()
      ensures authTokens == old(authTokens)
      ensures var outcome := RegisterParsed(deps, old(users), Parsed(input), salt, id, now, faults);
        && response == outcome.response
        && users == (if outcome.created.Some? then old(users)[outcome.created.value.email := outcome.created.value] else old(users))
    {
      if faults.lookupFails {
        return REGISTRATION_FAILED;
      }
      if input.email in users {
        return EMAIL_TAKEN;
      }
      var hashedPassword := HashPassword(deps.bcrypt, Str(input.password), salt);
      if hashedPassword.Err? || faults.writeFails {
        return REGISTRATION_FAILED;
      }
      var user := NewUser(input, hashedPassword.value, id, now);
      users := users[user.email := user];
      response := Response(201, REGISTERED, None, RegisterData(RegisteredView(user)));
    }
  }

  /** Registering adds at most one user, under its own email, so the table stays keyed by email. */
  lemma RegisterKeepsKeyedByEmail(deps: Deps, users: map<string, User>, read: BodyRead, salt: nat, id: string, now: int, faults: StoreFaults)
    requires KeyedByEmail(users)
    ensures var outcome := RegisterSpec(deps, users, read, salt, id, now, faults);
      outcome.created.Some? ==> KeyedByEmail(users[outcome.created.value.email := outcome.created.value])
  {
  }

  /**
   * Register, then log in with the same body: the login succeeds for the new
   * user and records one refresh token for it, provided bcrypt accepts its own
   * hashes, its hash passes the prefix test and is not the dummy hash, and the
   * access-token configuration is well-formed.
   */
  lemma RegisterThenLogin(deps: Deps, users: map<string, User>, body: map<string, Value>, salt: nat, id: string, now: int,
                          entropy: seq<Base16.Byte>, later: int, faults: StoreFaults)
    requires |entropy| == REFRESH_TOKEN_BYTES
    requires CompareAcceptsOwnHash(deps.bcrypt)
    requires RegisterSpec(deps, users, JsonBody(Obj(body)), salt, id, now, faults).created.Some?
    requires var h := RegisterSpec(deps, users, JsonBody(Obj(body)), salt, id, now, faults).created.value.passwordHash;
      HasBcryptPrefix(h) && h != DUMMY_HASH
    requires AccessTokenExpiresIn(deps.env).Ok? && AccessTokenSecret(deps.env).Ok?
    ensures var u := RegisterSpec(deps, users, JsonBody(Obj(body)), salt, id, now, faults).created.value;
      var r := LoginSpec(deps, users[u.email := u], JsonBody(Obj(body)), entropy, later, faults);
      && r.response.status == 200
      && r.response.data.user == LoginView(u)
      && r.record == Some(AuthToken(GenerateRefreshToken(entropy), u.id, RefreshTokenExpiry(deps.env, later)))
  {
    var parsed := ParseRegister(deps.isEmail, Obj(body));
    RegisterObjectBody(deps, users, body, salt, id, now, faults);
    var input := parsed.data;
    var u := RegisterSpec(deps, users, JsonBody(Obj(body)), salt, id, now, faults).created.value;
    var hash := HashPassword(deps.bcrypt, Str(input.password), salt);
    assert hash.Ok? && u == NewUser(input, hash.value, id, now);
    RegisterBodyPassesLogin(deps.isEmail, Obj(body));
    var login := ParseLogin(deps.isEmail, Obj(body)).data;
    LookupKeyIsSchemaEmail(deps.isEmail, Obj(body));
    assert LookupKey(login) == u.email;
    var table := users[u.email := u];
    assert table[LookupKey(login)] == u;
    TrimIdempotent(input.password);
    VerifyAcceptsOwnHash(deps.bcrypt, Trim(login.password), input.password, salt);
    assert CheckPassword(deps, login, u).matched;
    LoginSucceeds(deps, table, JsonBody(Obj(body)), entropy, later, faults);
  }
}
