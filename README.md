# Authentication core of the uwdo service, in Dafny

This project models the authentication core of a Next.js service:

- password hashing and verification (`src/lib/utils/password.ts`);
- access and refresh tokens (`src/lib/utils/jwt.ts`);
- the zod request schemas (`src/lib/validations/user.ts`);
- the two route handlers that use them, `POST /api/auth/register` and
  `POST /api/auth/login`.

The project proves properties of that model.

Modules, in dependency order:

- `Wrappers`: `Option` and `Result`.
- `Json`: the JavaScript values a request body can hold, with JS truthiness,
  `typeof` and property reads. A missing key reads as `Undefined`.
- `JsText`:
  - `String.prototype.trim`, over the ECMAScript WhiteSpace and LineTerminator
    code points;
  - ASCII `toLowerCase`;
  - `length` in UTF-16 code units.
- `Password`:
  - `hashPassword` and `verifyPassword`;
  - the bcrypt library as a parameter `Bcrypt(hash, compare)`.
- `Base16`: lowercase hex encoding (`Buffer.toString('hex')`) and its decoder.
- `Jwt`:
  - duration strings (`^\d+[smhd]$`) and the environment settings;
  - issue and verification of access tokens, with the `jsonwebtoken` library
    as a parameter `JwtLib(sign, verify)`;
  - refresh tokens and their expiry.
- `UserValidation`:
  - `registerUserSchema` and `loginUserSchema` as functions from a body to
    `Parsed(data)` or `Rejected(issues)`;
  - the two ways the handlers turn issues into a per-field error map.
- `AuthModel`: user and refresh-token rows, responses and their fixed
  messages, and what the handlers depend on.
- `LoginRoute`, `RegisterRoute`:
  - each handler's early-return chain as a pure specification function
    (`LoginSpec`, `RegisterSpec`);
  - lemmas about what each answers.
- `AuthStore`:
  - the class `Store` holding the user table (a map keyed by email) and the
    refresh-token table;
  - the handlers as methods that update them in place, each proved equal to
    its specification function.

Foreign code is modelled by parameters:

- bcrypt, `jsonwebtoken` and zod's email check are function-typed parameters.
- What the model assumes of them is a named hypothesis in the `requires` of
  the lemmas that need it:
  - `CompareAcceptsOwnHash`: bcrypt accepts a password against its own hash.
  - `CompareRejectsOtherHashes`: no collisions.
  - `VerifyHonoursSign`: the JWT library verifies what it signed until expiry.
- The clock is an integer count of seconds, `now`.
- `crypto.randomBytes(64)` is the `entropy` argument.
- bcrypt's salt randomness is the `salt` argument.
- A database call that throws is the `StoreFaults` argument.

The code behaves as follows where a reader might expect otherwise:

- A missing `JWT_ACCESS_SECRET` or a malformed `JWT_ACCESS_EXPIRES_IN` is
  found when a token is issued. It is not found at start-up. Login then
  answers the generic 500 "An error occurred during login" after the password
  matched, and writes no refresh-token row (`LoginConfigErrorWritesNothing`).
- For an unknown email, login answers 401 without calling `verifyPassword`.
  No bcrypt comparison is made (`LoginUnknownEmail`), while a wrong password
  costs exactly one comparison (`LoginWrongPassword`). The response is the
  same either way (`LoginIndistinguishableFailures`), but the cost is not.
- A uniqueness violation raised by the insert itself (a concurrent
  registration) goes to the handler's generic catch and answers 500. It does
  not answer 409.
- A `role` in the register body is accepted with any value and dropped. It does
  not cause a rejection.
- zod runs every check of a field and applies `.trim()` / `.toLowerCase()`
  where they are chained, after the checks. The email format and the lengths
  are therefore judged on the raw value. Whether `" A@Example.com "` is
  accepted is up to zod's email predicate, which here is the `isEmail`
  parameter.

## Model

| member | source | states |
|---|---|---|
| JsText.Trim | src/lib/utils/password.ts:17-21 | the result is no longer than the input, and is empty or begins and ends with a character `trim` keeps |
| JsText.TrimSplits | src/lib/utils/password.ts:21 | every string is its trim with only whitespace and line terminators before and after it |
| JsText.TrimUnique | src/lib/utils/password.ts:21 | a string with no whitespace at either end, wrapped in any whitespace, trims to exactly itself |
| JsText.TrimIdempotent | src/app/api/auth/login/route.ts:36 | trimming an already trimmed password changes nothing |
| JsText.TrimIgnoresPadding | src/lib/utils/password.ts:21 | strings that differ only in surrounding whitespace trim to the same string |
| JsText.TrimEmptyIffBlank | src/lib/utils/password.ts:17 | `trim().length === 0` holds exactly when every character is whitespace or a line terminator |
| JsText.Lower | src/lib/validations/user.ts:14 | same length, each character case-mapped, and no ASCII capital is left |
| JsText.LowerOfLower | src/lib/validations/user.ts:14 | lower-casing a string without ASCII capitals changes nothing |
| JsText.Utf16Length | src/lib/validations/user.ts:7-8 | a string's `length` is between its number of code points and twice that |
| Json.TypeOf | src/app/api/auth/register/route.ts:22 | `typeof` is "object" exactly for null, arrays and objects |
| Password.HashPassword | src/lib/utils/password.ts:12-24 | a non-string is refused, a blank password is refused; for any other string the result is `Ok` exactly when bcrypt hashes the trimmed password with 10 rounds, and then it is that hash |
| Password.HashPasswordRejectsBlank | src/lib/utils/password.ts:17-19 | a password of only whitespace is refused as empty before bcrypt is called |
| Password.HashPasswordIgnoresPadding | src/lib/utils/password.ts:21-23 | surrounding whitespace changes neither the hash requested nor whether hashing fails |
| Password.NormalizedPassword | src/lib/utils/password.ts:48-50 | the compared plaintext is the trimmed string, or "" for a missing or non-string password |
| Password.HashToCompare | src/lib/utils/password.ts:54-58 | the compared hash always passes the bcrypt prefix test; it is the stored hash when usable and DUMMY_HASH otherwise |
| Password.VerifyPassword | src/lib/utils/password.ts:42-76 | exactly one compare with the normalised arguments; an unusable or dummy stored hash never matches; otherwise the result is bcrypt's answer, and a rejection gives false |
| Password.DummyHashHasBcryptPrefix | src/lib/utils/password.ts:29 | the dummy hash passes the prefix test, so it costs a real comparison |
| Password.VerifyPasswordUniformCost | src/lib/utils/password.ts:62 | every call makes the same number (one) of compare calls, whatever the inputs and bcrypt's answers |
| Password.VerifyHashedPassword | src/lib/utils/password.ts:12-76 | under both bcrypt hypotheses, a password verifies against a hash of another exactly when the two agree after trimming |
| Password.VerifyAcceptsOwnHash | src/lib/utils/password.ts:12-76 | the "if" half of that needs only CompareAcceptsOwnHash |
| Base16.HexValue | src/lib/utils/jwt.ts:76 | the value of a hex digit is the number it encodes |
| Base16.Encode | src/lib/utils/jwt.ts:76 | two lowercase hex digits per byte |
| Base16.Decode | src/lib/utils/jwt.ts:76 | a successful decode reads two characters per byte |
| Base16.DecodeEncode | src/lib/utils/jwt.ts:76 | decoding the hex encoding gives the bytes back |
| Base16.EncodeInjective | src/lib/utils/jwt.ts:76 | different byte strings give different tokens |
| Jwt.ParseDuration | src/lib/utils/jwt.ts:86-94 | a match exactly for `^\d+[smhd]$`, giving the digits' value and the unit letter |
| Jwt.FormatDuration | src/lib/utils/jwt.ts:39 | every rendered duration is in the accepted format |
| Jwt.ParseFormatDuration | src/lib/utils/jwt.ts:86-94 | parsing a rendered duration gives it back |
| Jwt.DefaultsAreDurations | src/lib/utils/jwt.ts:35 | the defaults "1h" and "7d" are one hour and seven days |
| Jwt.AccessTokenSecret | src/lib/utils/jwt.ts:20-28 | success exactly when the secret is set and non-empty, and then it is that secret |
| Jwt.AccessTokenExpiresIn | src/lib/utils/jwt.ts:30-46 | unset or empty gives "1h"; any other value is accepted exactly when it matches `^\d+[smhd]$`; accepted values are durations |
| Jwt.GenerateAccessToken | src/lib/utils/jwt.ts:53-70 | a token is issued exactly when both settings are good, and a bad expiry is reported before a missing secret |
| Jwt.AccessTokenLifetime | src/lib/utils/jwt.ts:34-36 | with the expiry unset or empty, access tokens live 3600 seconds; otherwise they live the configured duration in seconds |
| Jwt.VerifyAccessToken | src/lib/utils/jwt.ts:119-136 | fails closed without a secret; succeeds exactly when the library verifies the token and its type is "access", and then returns the library's claims |
| Jwt.VerifyIssuedAccessToken | src/lib/utils/jwt.ts:53-70 | under VerifyHonoursSign, an issued token verifies with its user id, email, role and type "access" before it expires, and not after |
| Jwt.GenerateRefreshToken | src/lib/utils/jwt.ts:75-77 | 128 lowercase hex characters that decode back to the 64 random bytes |
| Jwt.RefreshTokenExpiry | src/lib/utils/jwt.ts:82-112 | the expiry is never before now |
| Jwt.RefreshTokenExpiration | src/lib/utils/jwt.ts:82-112 | the switch over units returns now plus the configured duration in seconds |
| Jwt.RefreshExpiryFallback | src/lib/utils/jwt.ts:83-91 | an unset or malformed setting means seven days |
| Jwt.RefreshExpiryConfigured | src/lib/utils/jwt.ts:93-109 | a setting `<n><unit>` means n of that unit |
| Jwt.RefreshExpiryZero | src/lib/utils/jwt.ts:93-109 | a zero amount expires immediately |
| Jwt.RefreshExpiryMonotone | src/lib/utils/jwt.ts:93-109 | for any two settings that parse to amounts of the same unit (leading zeros included), the larger amount never expires sooner |
| Jwt.RefreshExpiryLeadingZero | src/lib/utils/jwt.ts:86-94 | "07d" matches the pattern and means seven days |
| UserValidation.LookaheadMeaning | src/lib/validations/user.ts:20-23 | each lookahead `(?=.*[x])` holds exactly when a character of the class comes before the first line terminator |
| UserValidation.MessagesMeaning | src/lib/validations/user.ts:4-27 | a string field has no messages exactly when it meets all of its rules |
| UserValidation.FieldIssues | src/lib/validations/user.ts:4-27 | no issues exactly when the value is a string meeting every rule, and every issue is under the field's key |
| UserValidation.ParseRegister | src/lib/validations/user.ts:4-27 | a rejection always carries at least one issue |
| UserValidation.ParseLogin | src/lib/validations/user.ts:35-43 | a rejection always carries at least one issue |
| UserValidation.RegisterSchemaMeaning | src/lib/validations/user.ts:4-27 | the register schema accepts exactly the objects meeting the rules on the raw values, and yields the trimmed name, the lower-cased and trimmed email, and the untouched password |
| UserValidation.LoginSchemaMeaning | src/lib/validations/user.ts:35-43 | the login schema accepts exactly the objects with a good email and a non-empty password, and yields the normalised email and the untouched password |
| UserValidation.RegisterIgnoresRole | src/lib/validations/user.ts:24-26 | adding, changing or removing `role` never changes the register parse |
| UserValidation.RegisterBodyPassesLogin | src/lib/validations/user.ts:4-43 | a body the register schema accepts is accepted by the login schema with the same email and password |
| UserValidation.RegisteredPasswordNotBlank | src/lib/validations/user.ts:16-23 | an accepted register password never trims to empty, so hashPassword never refuses it as empty |
| UserValidation.NormalizeEmailIdempotent | src/app/api/auth/login/route.ts:35 | normalising an already normalised email changes nothing |
| UserValidation.FlattenFieldErrorsMessages | src/app/api/auth/login/route.ts:29-31 | each key of `flatten().fieldErrors` other than "undefined" lists exactly its field's messages in issue order, the same list the register route's grouping builds |
| UserValidation.GroupedErrors | src/app/api/auth/register/route.ts:29-36 | the keys are exactly the fields the issues name, with "undefined" for an issue without a path |
| UserValidation.MessagesForPosition | src/app/api/auth/register/route.ts:29-36 | each issue's message sits in its field's list right after those of the earlier issues of that field |
| UserValidation.MessagesForSources | src/app/api/auth/register/route.ts:29-36 | every listed message comes from an issue of that field |
| UserValidation.MessagesForOutside | src/app/api/auth/register/route.ts:29-36 | a field no issue names has no messages |
| UserValidation.GroupedErrorsSnoc | src/app/api/auth/register/route.ts:31-35 | one more issue appends its message to its field's list, creating the list if missing |
| UserValidation.WithPath | src/app/api/auth/login/route.ts:29-31 | exactly the issues that name a field are kept |
| UserValidation.WithPathMessages | src/app/api/auth/login/route.ts:29-31 | dropping the issues without a path leaves the message list of every field other than "undefined" unchanged, order and repeats included |
| UserValidation.FlattenFieldErrors | src/app/api/auth/login/route.ts:29-31 | the keys of `flatten().fieldErrors` are exactly the first path elements of the issues |
| AuthModel.ViewsIgnoreHash | src/app/api/auth/login/route.ts:85-91 | neither the login view of a user nor the register view (the columns selected at `src/app/api/auth/register/route.ts:62-70`) depends on its stored password hash, so no response can reveal it |
| LoginRoute.LoginSpec | src/app/api/auth/login/route.ts:16-100 | a refresh-token row exactly on 200; every 401 is the same generic answer; at most one bcrypt comparison |
| LoginRoute.LoginParsed | src/app/api/auth/login/route.ts:26-60 | from the schema's verdict on: a refresh-token row exactly on 200, every 401 is the generic answer, at most one bcrypt comparison |
| LoginRoute.LoginAs | src/app/api/auth/login/route.ts:48-95 | a row is written only for an active user whose access token was issued, and the row and response are that user's |
| LoginRoute.LookupKeyIsSchemaEmail | src/app/api/auth/login/route.ts:35 | the handler's second normalisation leaves the schema's email unchanged |
| LoginRoute.PasswordTrimmedOnce | src/app/api/auth/login/route.ts:36 | the handler's trim and verifyPassword's trim give the same plaintext |
| LoginRoute.LoginRejectsBadBody | src/app/api/auth/login/route.ts:19-23 | an unreadable or falsy body answers 400 "Invalid JSON payload", whatever the table holds |
| LoginRoute.LoginRejectsInvalidInput | src/app/api/auth/login/route.ts:26-32 | a body the schema refuses answers 400 with the flattened field errors, whatever the table holds |
| LoginRoute.LoginUnknownEmail | src/app/api/auth/login/route.ts:38-45 | an unknown email answers the generic 401, writes nothing and compares nothing |
| LoginRoute.LoginDeactivatedBeforePassword | src/app/api/auth/login/route.ts:48-53 | a deactivated account answers 403 whatever bcrypt would say |
| LoginRoute.LoginWrongPassword | src/app/api/auth/login/route.ts:56-60 | a wrong password answers the generic 401 after one comparison and writes nothing |
| LoginRoute.LoginIndistinguishableFailures | src/app/api/auth/login/route.ts:42-60 | an unknown email and a wrong password get the same response, and neither writes a row |
| LoginRoute.LoginSucceeds | src/app/api/auth/login/route.ts:63-95 | a good login answers 200 with both tokens and the user view, and records one refresh token for that user expiring at the configured time |
| LoginRoute.LoginConfigErrorWritesNothing | src/app/api/auth/login/route.ts:63-67 | a bad access-token configuration never yields 200 or a refresh-token row, and once the password matched it answers the generic 500 |
| LoginRoute.LoginLookupFault | src/app/api/auth/login/route.ts:38-40 | a user lookup that throws answers the generic 500, writes nothing and compares nothing |
| LoginRoute.LoginWriteFault | src/app/api/auth/login/route.ts:73-79 | a refresh-token insert that throws after a matched password answers the generic 500 and records nothing, after exactly one comparison |
| RegisterRoute.RegisterSpec | src/app/api/auth/register/route.ts:12-79 | a user is created exactly on 201, under an email not yet taken, with the fixed role, and the response shows it |
| RegisterRoute.RegisterParsed | src/app/api/auth/register/route.ts:40-73 | from a parsed input on, a creation is always under the parsed email |
| RegisterRoute.GroupIssues | src/app/api/auth/register/route.ts:29-36 | the loop builds exactly GroupedErrors of the issues |
| RegisterRoute.RegisterRejectsBadBody | src/app/api/auth/register/route.ts:15-24 | an unparsable, falsy or non-object body answers 400 "Invalid JSON payload", whatever the table holds |
| RegisterRoute.RegisterRejectsArray | src/app/api/auth/register/route.ts:22-37 | an array passes the handler's own check and is refused by the schema under the key "undefined" |
| RegisterRoute.RegisterRejectsInvalidInput | src/app/api/auth/register/route.ts:26-38 | a body the schema refuses answers 400 with the grouped issues and creates nothing |
| RegisterRoute.RegisterConflictSkipsHashing | src/app/api/auth/register/route.ts:42-48 | a taken email answers 409, whatever bcrypt would do |
| RegisterRoute.RegisterSucceeds | src/app/api/auth/register/route.ts:40-73 | a fresh, valid registration answers 201 and creates the trimmed name, the normalised email, the bcrypt hash of the trimmed password, role VICE_PRESIDENT, active |
| RegisterRoute.RegisterRoleIgnored | src/app/api/auth/register/route.ts:52-60 | the role in the body never changes the outcome |
| RegisterRoute.RegisterFaultsCreateNothing | src/app/api/auth/register/route.ts:74-78 | a failed hash or insert answers 500 and creates nothing |
| RegisterRoute.RegisterReadFault | src/app/api/auth/register/route.ts:15-20 | a body read failing with other than a SyntaxError or TypeError answers the generic 500 and creates nothing |
| RegisterRoute.RegisterLookupFault | src/app/api/auth/register/route.ts:42-44 | a duplicate check that throws answers the generic 500 and creates nothing |
| RegisterRoute.RegisterCreatedUser | src/app/api/auth/register/route.ts:55-61 | whatever role the body sends, a created user has the normalised email (not yet taken), the trimmed name, bcrypt's hash of the trimmed password, role VICE_PRESIDENT, is active, and carries the given id and timestamps |
| RegisterRoute.RegisterTwiceConflicts | src/app/api/auth/register/route.ts:42-48 | once a registration created its user, a second valid registration whose email normalises the same answers 409 and creates nothing |
| AuthStore.Store.Login | src/app/api/auth/login/route.ts:16-100 | the method answers as LoginSpec, appends exactly the row LoginSpec produces and leaves the users alone |
| AuthStore.Store.Register | src/app/api/auth/register/route.ts:12-79 | the method answers as RegisterSpec, inserts exactly the user it creates under its email, keeps the table keyed by email, and leaves the tokens alone |
| AuthStore.Store.InsertUser | src/app/api/auth/register/route.ts:42-73 | the duplicate check, hash and insert, as RegisterParsed says |
| AuthStore.RegisterKeepsKeyedByEmail | src/app/api/auth/register/route.ts:42-71 | registration keeps every user under its own email |
| AuthStore.RegisterThenLogin | src/app/api/auth/login/route.ts:35-95 | after registering, logging in with the same body succeeds for the new user and records one refresh token for it, given that bcrypt accepts its own hashes |

## Left out

- `src/lib/prisma.ts` (the database client), `src/lib/utils/api-response.ts` (the JSON wrapper around an answer) and `src/app/layout.tsx` are not part of this model. A response is its status, message, per-field errors and data.
- The database is two in-memory tables. A lookup or insert that throws is the `StoreFaults` argument. Concurrency, and the uniqueness race it allows, is not modelled beyond that fault.
- bcrypt, `jsonwebtoken` and zod's email regular expression are parameters. Their algorithms are not modelled, only the hypotheses their lemmas name.
- Password.CompareRejectsOtherHashes: real bcrypt reads only the first 72 bytes of a password, so it does not hold for longer passwords; only the "only if" half of `VerifyHashedPassword` relies on it.
- Logging with `console.error`, and timing other than the count of bcrypt comparisons, are not modelled.
- JSON numbers are integers. Floating point and `Number()` precision for huge duration amounts are not modelled.
- Jwt.RefreshTokenExpiry: computes the same fixed-second expiry as `Jwt.RefreshTokenExpiration`, so the same calendar arithmetic of `Date` is not modelled.
- Jwt.RefreshTokenExpiration: adds whole days, hours, minutes or seconds as fixed second counts to an integer clock. It does not model local-time calendar arithmetic of `Date` (daylight-saving changes) or its range limits.
- JsText.Lower: maps ASCII letters only. Unicode case mapping of `toLowerCase` is not modelled.
- Strings are sequences of Unicode scalar values. Lone surrogates cannot occur.
- UserValidation.FieldIssues: type-error messages follow zod's default wording ("Required", "Expected string, received number") as library text, and the exact wording of other zod versions is not captured.
- UserValidation.ParseRegister: the comment at `src/lib/validations/user.ts:24` says the role "is not accepted", and `.strip()` on line 26 is a method of zod objects rather than of `z.any().optional()`. The model takes the evidently intended reading: any `role` is accepted and dropped from the parsed data. The route never reads the role, so the fixed role holds whichever reading applies.
- Jwt.GenerateAccessToken: the `sign` parameter is total. `jsonwebtoken` also throws when the `ms` package cannot parse an `expiresIn` (for one longer than 100 characters); that throw is not modelled.
- UserValidation.GroupedErrors: the error object is a map, so the insertion order of its keys, seen when it is serialised, is not captured.
- Jwt.VerifyAccessToken: the library's internal checks (signature, algorithm, expiry) are the function parameter `verify`.
