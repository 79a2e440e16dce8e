/**
 * The records, collaborators and responses shared by the login and register
 * handlers (src/app/api/auth/login/route.ts, src/app/api/auth/register/route.ts).
 */
module AuthModel {
  import opened Wrappers
  import opened Json
  import Password
  import Jwt

  /** A row of the user table. */
  datatype User = User(
    id: string, name: string, email: string, passwordHash: string,
    role: string, isActive: bool, createdAt: int, updatedAt: int)

  /** A row of the refresh-token table. */
  datatype AuthToken = AuthToken(token: string, userId: string, expiresAt: int)

  /** The role every registered user gets. */
  const VICE_PRESIDENT: string := "VICE_PRESIDENT"

  /** The user as the login response shows it. */
  datatype LoginUserView = LoginUserView(id: string, name: string, email: string, role: string, isActive: bool)

  /** The user as the register response shows it (the columns its `select` lists). */
  datatype RegisteredUserView = RegisteredUserView(
    id: string, name: string, email: string, role: string, isActive: bool, createdAt: int, updatedAt: int)

  function LoginView(u: User): (v: LoginUserView)
    ensures v.id == u.id && v.name == u.name && v.email == u.email && v.role == u.role && v.isActive == u.isActive
  {
    LoginUserView(u.id, u.name, u.email, u.role, u.isActive)
  }

  function RegisteredView(u: User): (v: RegisteredUserView)
    ensures v.id == u.id && v.name == u.name && v.email == u.email && v.role == u.role
    ensures v.isActive == u.isActive && v.createdAt == u.createdAt && v.updatedAt == u.updatedAt
  {
    RegisteredUserView(u.id, u.name, u.email, u.role, u.isActive, u.createdAt, u.updatedAt)
  }

  /** Neither view depends on the stored hash: no response can reveal it. */
  lemma ViewsIgnoreHash(u: User, h: string)
    ensures LoginView(u.(passwordHash := h)) == LoginView(u)
    ensures RegisteredView(u.(passwordHash := h)) == RegisteredView(u)
  {
  }

  datatype ResponseData =
    | NoData
    | LoginData(accessToken: string, refreshToken: string, user: LoginUserView)
    | RegisterData(registered: RegisteredUserView)

  /** An HTTP answer: status, message, per-field errors when validation failed, and the payload. */
  datatype Response = Response(status: nat, message: string, errors: Option<map<string, seq<string>>>, data: ResponseData)

  const INVALID_JSON: Response := Response(400, "Invalid JSON payload", None, NoData)
  const INVALID_CREDENTIALS: Response := Response(401, "Invalid email or password", None, NoData)
  const DEACTIVATED: Response := Response(403, "Account is deactivated. Please contact administrator.", None, NoData)
  const LOGIN_FAILED: Response := Response(500, "An error occurred during login", None, NoData)
  const EMAIL_TAKEN: Response := Response(409, "User with this email already exists", None, NoData)
  const REGISTRATION_FAILED: Response := Response(500, "An error occurred during registration", None, NoData)
  const LOGIN_SUCCESSFUL: string := "Login successful"
  const REGISTERED: string := "User registered successfully"

  function ValidationFailed(errors: map<string, seq<string>>): Response
  {
    Response(400, "Validation failed", Some(errors), NoData)
  }

  /** What `await request.json()` did: produced a value, or threw. */
  datatype BodyRead =
    | JsonBody(value: Value)
    | SyntaxOrTypeError   // a SyntaxError or TypeError from reading or parsing
    | OtherReadError      // any other exception

  /** The calls into the database that throw, for this request. */
  datatype StoreFaults = StoreFaults(lookupFails: bool, writeFails: bool)

  /** The libraries and the configuration the handlers call: zod's email test, bcrypt, the JWT library and the environment. */
  datatype Deps = Deps(isEmail: string -> bool, bcrypt: Password.Bcrypt, jwt: Jwt.JwtLib, env: Jwt.Env)

  /** The user table is keyed by email: each row sits under its own email. */
  ghost predicate KeyedByEmail(users: map<string, User>)
  {
    forall e :: e in users ==> users[e].email == e
  }
}
