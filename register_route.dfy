/**
 * The decisions of `POST /api/auth/register` (src/app/api/auth/register/route.ts),
 * as a function of the user table and the request. The handler that inserts
 * the row is AuthStore.Store.Register.
 */
module RegisterRoute {
  import opened Wrappers
  import opened Json
  import opened JsText
  import opened Password
  import opened UserValidation
  import opened AuthModel

  /** The answer and the user row to insert, if any. */
  datatype RegisterOutcome = RegisterOutcome(response: Response, created: Option<User>)

  /**
   * The body as the handler sees it: a SyntaxError or TypeError becomes null;
   * any other read failure is rethrown (None here) and answers 500.
   */
  function RegisterBody(read: BodyRead): Option<Value>
  {
    match read
    case JsonBody(v) => Some(v)
    case SyntaxOrTypeError => Some(Null)
    case OtherReadError => None
  }

  /** The row the handler creates: the database assigns the id, the active flag and both timestamps. */
  function NewUser(input: RegisterInput, hash: string, id: string, now: int): (u: User)
    ensures u.name == input.name && u.email == input.email && u.passwordHash == hash
    ensures u.role == VICE_PRESIDENT && u.isActive && u.createdAt == now == u.updatedAt
  {
    User(id, input.name, input.email, hash, VICE_PRESIDENT, true, now, now)
  }

  /**
   * The early-return chain of the handler: body, schema, duplicate email,
   * hashing, insert; any throw answers 500.
   */
  function RegisterSpec(deps: Deps, users: map<string, User>, read: BodyRead, salt: nat, id: string, now: int, faults: StoreFaults): (r: RegisterOutcome)
    ensures r.created.Some? <==> r.response.status == 201
    ensures r.created.Some? ==> r.created.value.email !in users && r.created.value.role == VICE_PRESIDENT
    ensures r.created.Some? ==> r.response == Response(201, REGISTERED, None, RegisterData(RegisteredView(r.created.value)))
    ensures r.response.status in {201, 400, 409, 500}
  {
    match RegisterBody(read)
    case None => RegisterOutcome(REGISTRATION_FAILED, None)
    case Some(body) =>
      if !Truthy(body) || TypeOf(body) != "object" then RegisterOutcome(INVALID_JSON, None)
      else RegisterParsed(deps, users, ParseRegister(deps.isEmail, body), salt, id, now, faults)
  }

  /** The chain from the schema's verdict on. */
  function RegisterParsed(deps: Deps, users: map<string, User>, parsed: Parse<RegisterInput>, salt: nat, id: string, now: int, faults: StoreFaults): (r: RegisterOutcome)
    ensures r.created.Some? <==> r.response.status == 201
    ensures r.created.Some? ==> parsed.Parsed? && r.created.value.email == parsed.data.email && parsed.data.email !in users
    ensures r.created.Some? ==> r.created.value.role == VICE_PRESIDENT
    ensures r.created.Some? ==> r.response == Response(201, REGISTERED, None, RegisterData(RegisteredView(r.created.value)))
    ensures r.response.status in {201, 400, 409, 500}
  {
    match parsed
    case Rejected(issues) => RegisterOutcome(ValidationFailed(GroupedErrors(issues)), None)
    case Parsed(input) =>
      if faults.lookupFails then RegisterOutcome(REGISTRATION_FAILED, None)
      else if input.email in users then RegisterOutcome(EMAIL_TAKEN, None)
      else
        match HashPassword(deps.bcrypt, Str(input.password), salt)
        case Err(_) => RegisterOutcome(REGISTRATION_FAILED, None)
        case Ok(hash) =>
          if faults.writeFails then RegisterOutcome(REGISTRATION_FAILED, None)
          else
            var user := NewUser(input, hash, id, now);
            RegisterOutcome(Response(201, REGISTERED, None, RegisterData(RegisteredView(user))), Some(user))
  }

  /** An object body goes straight to the schema. */
  lemma RegisterObjectBody(deps: Deps, users: map<string, User>, fields: map<string, Value>, salt: nat, id: string, now: int, faults: StoreFaults)
    ensures RegisterSpec(deps, users, JsonBody(Obj(fields)), salt, id, now, faults)
      == RegisterParsed(deps, users, ParseRegister(deps.isEmail, Obj(fields)), salt, id, now, faults)
  {
    var body := Obj(fields);
    assert RegisterBody(JsonBody(body)) == Some(body);
    assert Truthy(body);
    assert TypeOf(body) == "object";
  }

  /**
   * The `forEach` that groups zod's issues by `path[0]`: it yields exactly
   * the grouping specified by GroupedErrors.
   */
  method GroupIssues(issues: seq<Issue>) returns (errors: map<string, seq<string>>)
    ensures errors == GroupedErrors(issues)
  {
    errors := map[];
    var i := 0;
    while i < |issues|
      invariant 0 <= i <= |issues|
      invariant errors == GroupedErrors(issues[..i])
    {
      var issue := issues[i];
      var field := FieldOf(issue);
      if field !in errors {
        errors := errors[field := []];
      }
      errors := errors[field := errors[field] + [issue.message]];
      GroupedErrorsSnoc(issues[..i], issue);
      assert issues[..i + 1] == issues[..i] + [issue];
      i := i + 1;
    }
    assert issues[..i] == issues;
  }

  /** The input reaches the duplicate check: the body is an object the schema accepts and the lookup does not throw. */
  ghost predicate ReachesLookup(deps: Deps, read: BodyRead, faults: StoreFaults)
  {
    && RegisterBody(read).Some?
    && Truthy(RegisterBody(read).value) && TypeOf(RegisterBody(read).value) == "object"
    && ParseRegister(deps.isEmail, RegisterBody(read).value).Parsed?
    && !faults.lookupFails
  }

  function InputOf(deps: Deps, read: BodyRead): RegisterInput
    requires RegisterBody(read).Some? && ParseRegister(deps.isEmail, RegisterBody(read).value).Parsed?
  {
    ParseRegister(deps.isEmail, RegisterBody(read).value).data
  }

  /** A body that is missing, unparsable, falsy or not an object answers 400; the table is not consulted. */
  lemma RegisterRejectsBadBody(deps: Deps, users: map<string, User>, other: map<string, User>, read: BodyRead, salt: nat, id: string, now: int, faults: StoreFaults)
    requires read.SyntaxOrTypeError? || (read.JsonBody? && (!Truthy(read.value) || TypeOf(read.value) != "object"))
    ensures RegisterSpec(deps, users, read, salt, id, now, faults) == RegisterOutcome(INVALID_JSON, None)
    ensures RegisterSpec(deps, users, read, salt, id, now, faults) == RegisterSpec(deps, other, read, salt, id, now, faults)
  {
  }

  /** An array body passes the handler's own check and is refused by the schema under the key "undefined". */
  lemma RegisterRejectsArray(deps: Deps, users: map<string, User>, items: seq<Value>, salt: nat, id: string, now: int, faults: StoreFaults)
    ensures var r := RegisterSpec(deps, users, JsonBody(Arr(items)), salt, id, now, faults);
      r.created.None? && r.response.status == 400 && r.response.errors.Some? && r.response.errors.value.Keys == {"undefined"}
  {
    var issues := ParseRegister(deps.isEmail, Arr(items)).issues;
    assert issues == [Issue([], TypeMessage("object", Arr(items)))];
    assert Fields(issues) == {"undefined"} by {
      assert FieldOf(issues[0]) == "undefined";
      assert forall y :: y in issues <==> y == issues[0];
    }
  }

  /** A body the schema refuses answers 400 with the grouped issues; nothing is hashed or written. */
  lemma RegisterRejectsInvalidInput(deps: Deps, users: map<string, User>, read: BodyRead, salt: nat, id: string, now: int, faults: StoreFaults)
    requires read.JsonBody? && Truthy(read.value) && TypeOf(read.value) == "object"
    requires ParseRegister(deps.isEmail, read.value).Rejected?
    ensures RegisterSpec(deps, users, read, salt, id, now, faults)
      == RegisterOutcome(ValidationFailed(GroupedErrors(ParseRegister(deps.isEmail, read.value).issues)), None)
  {
  }

  /** A taken (normalised) email answers 409 without hashing: the outcome is the same whatever bcrypt does. */
  lemma RegisterConflictSkipsHashing(deps: Deps, other: Bcrypt, users: map<string, User>, read: BodyRead, salt: nat, id: string, now: int, faults: StoreFaults)
    requires ReachesLookup(deps, read, faults) && InputOf(deps, read).email in users
    ensures RegisterSpec(deps, users, read, salt, id, now, faults) == RegisterOutcome(EMAIL_TAKEN, None)
    ensures RegisterSpec(deps.(bcrypt := other), users, read, salt, id, now, faults) == RegisterSpec(deps, users, read, salt, id, now, faults)
  {
  }

  /**
   * A fresh email with a hash from bcrypt and a working insert: 201 with the
   * new user, stored under the normalised email with the trimmed name, the
   * bcrypt hash of the trimmed password, the fixed role, active.
   */
  lemma RegisterSucceeds(deps: Deps, users: map<string, User>, body: map<string, Value>, salt: nat, id: string, now: int, faults: StoreFaults)
    requires RegisterFieldsValid(deps.isEmail, body)
    requires !faults.lookupFails && !faults.writeFails
    requires NormalizeEmail(Get(body, "email").s) !in users
    requires deps.bcrypt.hash(Trim(Get(body, "password").s), SALT_ROUNDS, salt).Some?
    ensures var r := RegisterSpec(deps, users, JsonBody(Obj(body)), salt, id, now, faults);
      && r.response.status == 201
      && r.created == Some(User(id, Trim(Get(body, "name").s), NormalizeEmail(Get(body, "email").s),
           deps.bcrypt.hash(Trim(Get(body, "password").s), SALT_ROUNDS, salt).value, VICE_PRESIDENT, true, now, now))
  {
    var parsed := ParseRegister(deps.isEmail, Obj(body));
    RegisterSchemaMeaning(deps.isEmail, Obj(body));
    RegisteredPasswordNotBlank(deps.isEmail, Obj(body));
    RegisterInputSucceeds(deps, users, parsed.data, salt, id, now, faults);
    RegisterObjectBody(deps, users, body, salt, id, now, faults);
  }

  lemma RegisterInputSucceeds(deps: Deps, users: map<string, User>, input: RegisterInput, salt: nat, id: string, now: int, faults: StoreFaults)
    requires !faults.lookupFails && !faults.writeFails && input.email !in users
    requires Trim(input.password) != [] && deps.bcrypt.hash(Trim(input.password), SALT_ROUNDS, salt).Some?
    ensures RegisterParsed(deps, users, Parsed(input), salt, id, now, faults).created
      == Some(NewUser(input, deps.bcrypt.hash(Trim(input.password), SALT_ROUNDS, salt).value, id, now))
  {
  }

  /** The role sent in the body changes nothing: the same outcome with or without it, and whatever its value. */
  lemma RegisterRoleIgnored(deps: Deps, users: map<string, User>, body: map<string, Value>, role: Value, salt: nat, id: string, now: int, faults: StoreFaults)
    ensures RegisterSpec(deps, users, JsonBody(Obj(body["role" := role])), salt, id, now, faults)
      == RegisterSpec(deps, users, JsonBody(Obj(body)), salt, id, now, faults)
  {
    RegisterIgnoresRole(deps.isEmail, body, role);
    RegisterObjectBody(deps, users, body, salt, id, now, faults);
    RegisterObjectBody(deps, users, body["role" := role], salt, id, now, faults);
  }

  /** Any failure of the table or of bcrypt after validation answers 500 and creates nothing. */
  lemma RegisterFaultsCreateNothing(deps: Deps, users: map<string, User>, read: BodyRead, salt: nat, id: string, now: int, faults: StoreFaults)
    requires ReachesLookup(deps, read, faults) && InputOf(deps, read).email !in users
    requires faults.writeFails || HashPassword(deps.bcrypt, Str(InputOf(deps, read).password), salt).Err?
    ensures RegisterSpec(deps, users, read, salt, id, now, faults) == RegisterOutcome(REGISTRATION_FAILED, None)
  {
  }

  /** A read failure other than a SyntaxError or TypeError is rethrown and answers the generic 500. */
  lemma RegisterReadFault(deps: Deps, users: map<string, User>, salt: nat, id: string, now: int, faults: StoreFaults)
    ensures RegisterSpec(deps, users, OtherReadError, salt, id, now, faults) == RegisterOutcome(REGISTRATION_FAILED, None)
  {
  }

  /** A duplicate check that throws answers the generic 500 and creates nothing. */
  lemma RegisterLookupFault(deps: Deps, users: map<string, User>, read: BodyRead, salt: nat, id: string, now: int, faults: StoreFaults)
    requires RegisterBody(read).Some?
    requires Truthy(RegisterBody(read).value) && TypeOf(RegisterBody(read).value) == "object"
    requires ParseRegister(deps.isEmail, RegisterBody(read).value).Parsed? && faults.lookupFails
    ensures RegisterSpec(deps, users, read, salt, id, now, faults) == RegisterOutcome(REGISTRATION_FAILED, None)
  {
  }

  /**
   * Whatever else the body holds (a `role` included), a created user carries
   * the normalised email, the trimmed name, bcrypt's hash of the trimmed
   * password, the fixed role, the active flag, the given id and timestamps,
   * and its email was not yet taken.
   */
  lemma RegisterCreatedUser(deps: Deps, users: map<string, User>, body: map<string, Value>, salt: nat, id: string, now: int, faults: StoreFaults)
    requires RegisterSpec(deps, users, JsonBody(Obj(body)), salt, id, now, faults).created.Some?
    ensures var u := RegisterSpec(deps, users, JsonBody(Obj(body)), salt, id, now, faults).created.value;
      && u.email == NormalizeEmail(Get(body, "email").s) && u.email !in users
      && u.name == Trim(Get(body, "name").s)
      && Some(u.passwordHash) == deps.bcrypt.hash(Trim(Get(body, "password").s), SALT_ROUNDS, salt)
      && u.role == VICE_PRESIDENT && u.isActive
      && u.id == id && u.createdAt == now && u.updatedAt == now
  {
    RegisterObjectBody(deps, users, body, salt, id, now, faults);
    RegisterSchemaMeaning(deps.isEmail, Obj(body));
  }

  /**
   * Registering twice with emails that normalise alike: once the first call
   * created its user, the second answers 409 and creates nothing, whatever
   * its name, password, role, salt or clock.
   */
  lemma RegisterTwiceConflicts(deps: Deps, users: map<string, User>, first: map<string, Value>, second: map<string, Value>,
                               salt: nat, id: string, now: int, faults: StoreFaults,
                               salt2: nat, id2: string, now2: int, faults2: StoreFaults)
    requires RegisterSpec(deps, users, JsonBody(Obj(first)), salt, id, now, faults).created.Some?
    requires RegisterFieldsValid(deps.isEmail, second) && !faults2.lookupFails
    requires NormalizeEmail(Get(second, "email").s) == NormalizeEmail(Get(first, "email").s)
    ensures var u := RegisterSpec(deps, users, JsonBody(Obj(first)), salt, id, now, faults).created.value;
      RegisterSpec(deps, users[u.email := u], JsonBody(Obj(second)), salt2, id2, now2, faults2) == RegisterOutcome(EMAIL_TAKEN, None)
  {
    var u := RegisterSpec(deps, users, JsonBody(Obj(first)), salt, id, now, faults).created.value;
    RegisterCreatedUser(deps, users, first, salt, id, now, faults);
    RegisterSchemaMeaning(deps.isEmail, Obj(second));
    var parsed := ParseRegister(deps.isEmail, Obj(second));
    assert parsed.data.email == u.email;
    RegisterObjectBody(deps, users[u.email := u], second, salt2, id2, now2, faults2);
  }
}
