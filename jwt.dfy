/**
 * Token utilities (src/lib/utils/jwt.ts): duration settings, access-token
 * issue and verification, refresh tokens and their expiry.
 *
 * Time is integer seconds supplied by the caller. Signing and library
 * verification are the parameter JwtLib; environment variables are Env.
 */
module Jwt {
  import opened Wrappers
  import opened JsText
  import Base16

  // ---------------------------------------------------------------- durations

  datatype TimeUnit = Second | Minute | Hour | Day

  /** `<amount><unit>`, as in "15m" or "7d". */
  datatype Duration = Duration(amount: nat, unit: TimeUnit)

  function UnitOf(c: char): Option<TimeUnit>
  {
    if c == 's' then Some(Second)
    else if c == 'm' then Some(Minute)
    else if c == 'h' then Some(Hour)
    else if c == 'd' then Some(Day)
    else None
  }

  function UnitLetter(u: TimeUnit): (c: char)
    ensures UnitOf(c) == Some(u)
  {
    match u
    case Second => 's'
    case Minute => 'm'
    case Hour => 'h'
    case Day => 'd'
  }

  function UnitSeconds(u: TimeUnit): nat
  {
    match u
    case Second => 1
    case Minute => 60
    case Hour => 3600
    case Day => 86400
  }

  function Seconds(d: Duration): nat
  {
    d.amount * UnitSeconds(d.unit)
  }

  predicate AllDigits(s: string)
  {
    forall i :: 0 <= i < |s| ==> IsAsciiDigit(s[i])
  }

  /** The whole string matches `^\d+[smhd]$` (ASCII digits; `$` matches only at the very end). */
  predicate IsDurationString(s: string)
  {
    |s| >= 2 && AllDigits(s[..|s| - 1]) && UnitOf(s[|s| - 1]).Some?
  }

  /** `Number(digits)` for a string of decimal digits, most significant first. */
  function DigitsValue(ds: string): nat
    requires AllDigits(ds)
  {
    if ds == [] then 0 else 10 * DigitsValue(ds[..|ds| - 1]) + (ds[|ds| - 1] as int - '0' as int)
  }

  /** `s.match(/^(\d+)([smhd])$/)`, with group 1 read as a number and group 2 as the unit. */
  function ParseDuration(s: string): (r: Option<Duration>)
    ensures r.Some? <==> IsDurationString(s)
    ensures r.Some? ==> r.value.amount == DigitsValue(s[..|s| - 1]) && UnitOf(s[|s| - 1]) == Some(r.value.unit)
  {
    if |s| >= 2 && AllDigits(s[..|s| - 1]) then
      match UnitOf(s[|s| - 1])
      case Some(u) => Some(Duration(DigitsValue(s[..|s| - 1]), u))
      case None => None
    else None
  }

  /** Decimal rendering without leading zeros. */
  function DecimalDigits(n: nat): (s: string)
    ensures |s| >= 1 && AllDigits(s)
  {
    if n < 10 then [('0' as int + n) as char] else DecimalDigits(n / 10) + [('0' as int + n % 10) as char]
  }

  lemma {:induction false} DigitsValueOfDecimal(n: nat)
    ensures DigitsValue(DecimalDigits(n)) == n
  {
    var s := DecimalDigits(n);
    if n >= 10 {
      DigitsValueOfDecimal(n / 10);
      assert s[..|s| - 1] == DecimalDigits(n / 10);
    }
  }

  function FormatDuration(d: Duration): (s: string)
    ensures IsDurationString(s)
  {
    var ds := DecimalDigits(d.amount);
    assert (ds + [UnitLetter(d.unit)])[..|ds|] == ds;
    ds + [UnitLetter(d.unit)]
  }

  /** Parsing a formatted duration gives the duration back. */
  lemma ParseFormatDuration(d: Duration)
    ensures ParseDuration(FormatDuration(d)) == Some(d)
  {
    var ds := DecimalDigits(d.amount);
    var s := FormatDuration(d);
    assert s[..|s| - 1] == ds;
    DigitsValueOfDecimal(d.amount);
  }

  // ------------------------------------------------------------ configuration

  /** JWT_ACCESS_SECRET, JWT_ACCESS_EXPIRES_IN, JWT_REFRESH_EXPIRES_IN; None when unset. */
  datatype Env = Env(accessSecret: Option<string>, accessExpiresIn: Option<string>, refreshExpiresIn: Option<string>)

  datatype ConfigError =
    | MissingAccessSecret    // "JWT_ACCESS_SECRET is not defined"
    | MalformedAccessExpiry  // "JWT_ACCESS_EXPIRES_IN must be in format: 10s | 5m | 1h | 7d"

  const DEFAULT_ACCESS_EXPIRES_IN: string := "1h"
  const DEFAULT_REFRESH_EXPIRES_IN: string := "7d"
  const ACCESS_TOKEN_TYPE: string := "access"
  const REFRESH_TOKEN_BYTES: nat := 64

  lemma DefaultsAreDurations()
    ensures ParseDuration(DEFAULT_ACCESS_EXPIRES_IN) == Some(Duration(1, Hour))
    ensures ParseDuration(DEFAULT_REFRESH_EXPIRES_IN) == Some(Duration(7, Day))
  {
    assert DEFAULT_ACCESS_EXPIRES_IN[..1] == "1" && DEFAULT_ACCESS_EXPIRES_IN[1] == 'h';
    assert DigitsValue("1") == 10 * DigitsValue("") + 1;
    assert DEFAULT_REFRESH_EXPIRES_IN[..1] == "7" && DEFAULT_REFRESH_EXPIRES_IN[1] == 'd';
    assert DigitsValue("7") == 10 * DigitsValue("") + 7;
  }

  /** `getAccessTokenSecret`: the secret, or a throw when it is unset or empty. */
  function AccessTokenSecret(env: Env): (r: Result<string, ConfigError>)
    ensures r.Ok? <==> env.accessSecret.Some? && env.accessSecret.value != ""
    ensures r.Ok? ==> r.value == env.accessSecret.value
    ensures r.Err? ==> r.error == MissingAccessSecret
  {
    match env.accessSecret
    case None => Err(MissingAccessSecret)
    case Some(secret) => if secret == "" then Err(MissingAccessSecret) else Ok(secret)
  }

  /** `getAccessTokenExpiresIn`: "1h" when unset or empty, the setting when well formed, a throw otherwise. */
  function AccessTokenExpiresIn(env: Env): (r: Result<string, ConfigError>)
    ensures env.accessExpiresIn.None? || env.accessExpiresIn == Some("") ==> r == Ok(DEFAULT_ACCESS_EXPIRES_IN)
    ensures env.accessExpiresIn.Some? && env.accessExpiresIn != Some("") ==>
      (r == Ok(env.accessExpiresIn.value) <==> IsDurationString(env.accessExpiresIn.value)) &&
      (r == Err(MalformedAccessExpiry) <==> !IsDurationString(env.accessExpiresIn.value))
    ensures r.Ok? ==> ParseDuration(r.value).Some?
  {
    DefaultsAreDurations();
    match env.accessExpiresIn
    case None => Ok(DEFAULT_ACCESS_EXPIRES_IN)
    case Some(expiresIn) =>
      if expiresIn == "" then Ok(DEFAULT_ACCESS_EXPIRES_IN)
      else if ParseDuration(expiresIn).None? then Err(MalformedAccessExpiry)
      else Ok(expiresIn)
  }

  // ------------------------------------------------------------ access tokens

  /** The claims the handler signs: `type` is always "access". */
  datatype AccessTokenPayload = AccessTokenPayload(userId: string, email: string, role: string, tokenType: string)

  /** What library verification hands back: the claims, `type` (None when absent), and `iat`/`exp`. */
  datatype DecodedToken = DecodedToken(userId: string, email: string, role: string, tokenType: Option<string>, iat: int, exp: int)

  /**
   * The signing library. `sign(payload, secret, expiresIn, now)` adds `iat := now`
   * and `exp := now + expiresIn`; `verify(token, secret, now)` is None when the library throws.
   */
  datatype JwtLib = JwtLib(sign: (AccessTokenPayload, string, string, int) -> string, verify: (string, string, int) -> Option<DecodedToken>)

  /**
   * Verification agrees with signing: under the same secret a signed token
   * decodes to its claims while `now` is before `exp` (section 4.1.4 of RFC 7519), and is refused from `exp` on.
   */
  ghost predicate VerifyHonoursSign(lib: JwtLib)
  {
    forall p: AccessTokenPayload, secret: string, expiresIn: string, iat: int, now: int ::
      IsDurationString(expiresIn) ==>
        lib.verify(lib.sign(p, secret, expiresIn, iat), secret, now) ==
          var exp := iat + Seconds(ParseDuration(expiresIn).value);
          if now < exp then Some(DecodedToken(p.userId, p.email, p.role, Some(p.tokenType), iat, exp)) else None
  }

  /** `generateAccessToken`: build the payload, resolve the expiry, then read the secret, then sign. */
  function GenerateAccessToken(env: Env, lib: JwtLib, now: int, userId: string, email: string, role: string): (r: Result<string, ConfigError>)
    ensures r.Ok? <==> AccessTokenExpiresIn(env).Ok? && AccessTokenSecret(env).Ok?
    ensures AccessTokenExpiresIn(env).Err? ==> r == Err(MalformedAccessExpiry)
    ensures AccessTokenExpiresIn(env).Ok? && AccessTokenSecret(env).Err? ==> r == Err(MissingAccessSecret)
  {
    var payload := AccessTokenPayload(userId, email, role, ACCESS_TOKEN_TYPE);
    var expiresIn :- AccessTokenExpiresIn(env);
    var secret :- AccessTokenSecret(env);
    Ok(lib.sign(payload, secret, expiresIn, now))
  }

  /** Lifetime in seconds of the access tokens issued under a well-formed configuration. */
  function AccessTokenLifetime(env: Env): (n: nat)
    requires AccessTokenExpiresIn(env).Ok?
    ensures env.accessExpiresIn.None? || env.accessExpiresIn == Some("") ==> n == 3600
    ensures env.accessExpiresIn.Some? && env.accessExpiresIn != Some("") ==>
      n == Seconds(ParseDuration(env.accessExpiresIn.value).value)
  {
    DefaultsAreDurations();
    Seconds(ParseDuration(AccessTokenExpiresIn(env).value).value)
  }

  /** `verifyAccessToken`: the decoded claims when verification succeeds and `type` is "access", null otherwise. */
  function VerifyAccessToken(env: Env, lib: JwtLib, token: string, now: int): (r: Option<DecodedToken>)
    ensures AccessTokenSecret(env).Err? ==> r.None?
    ensures r.Some? <==>
      AccessTokenSecret(env).Ok? && lib.verify(token, env.accessSecret.value, now).Some? &&
      lib.verify(token, env.accessSecret.value, now).value.tokenType == Some(ACCESS_TOKEN_TYPE)
    ensures r.Some? ==> r == lib.verify(token, env.accessSecret.value, now) && r.value.tokenType == Some(ACCESS_TOKEN_TYPE)
  {
    match AccessTokenSecret(env)
    case Err(_) => None
    case Ok(secret) =>
      match lib.verify(token, secret, now)
      case None => None
      case Some(decoded) => if decoded.tokenType != Some(ACCESS_TOKEN_TYPE) then None else Some(decoded)
  }

  /**
   * Issue-then-verify: a token issued at `iat` verifies to exactly the user id,
   * email and role it was issued for, typed "access", until its lifetime has elapsed, and not after.
   */
  lemma VerifyIssuedAccessToken(env: Env, lib: JwtLib, iat: int, now: int, userId: string, email: string, role: string)
    requires VerifyHonoursSign(lib)
    requires GenerateAccessToken(env, lib, iat, userId, email, role).Ok?
    ensures var token := GenerateAccessToken(env, lib, iat, userId, email, role).value;
      var exp := iat + AccessTokenLifetime(env);
      VerifyAccessToken(env, lib, token, now) ==
        if now < exp then Some(DecodedToken(userId, email, role, Some(ACCESS_TOKEN_TYPE), iat, exp)) else None
  {
    var expiresIn := AccessTokenExpiresIn(env).value;
    var secret := AccessTokenSecret(env).value;
    var p := AccessTokenPayload(userId, email, role, ACCESS_TOKEN_TYPE);
    assert GenerateAccessToken(env, lib, iat, userId, email, role).value == lib.sign(p, secret, expiresIn, iat);
    assert IsDurationString(expiresIn);
  }

  // ----------------------------------------------------------- refresh tokens

  /** `generateRefreshToken`: the 64 random bytes, hex encoded. */
  function GenerateRefreshToken(entropy: seq<Base16.Byte>): (token: string)
    requires |entropy| == REFRESH_TOKEN_BYTES
    ensures |token| == 128
    ensures forall i :: 0 <= i < |token| ==> Base16.IsLowerHexDigit(token[i])
    ensures Base16.Decode(token) == Some(entropy)
  {
    Base16.DecodeEncode(entropy);
    Base16.Encode(entropy)
  }

  /** The refresh lifetime: the setting (default "7d") when well formed, seven days otherwise. */
  function RefreshDuration(env: Env): Duration
  {
    var expiresIn := if env.refreshExpiresIn.Some? then env.refreshExpiresIn.value else DEFAULT_REFRESH_EXPIRES_IN;
    match ParseDuration(expiresIn)
    case Some(d) => d
    case None => Duration(7, Day)
  }

  /** When a refresh token issued at `now` expires. */
  function RefreshTokenExpiry(env: Env, now: int): (t: int)
    ensures t >= now
  {
    now + Seconds(RefreshDuration(env))
  }

  /** `getRefreshTokenExpiration`: the date moved forward unit by unit, as the source's switch does. */
  method RefreshTokenExpiration(env: Env, now: int) returns (expiresAt: int)
    ensures expiresAt == RefreshTokenExpiry(env, now)
  {
    var expiresIn := if env.refreshExpiresIn.Some? then env.refreshExpiresIn.value else DEFAULT_REFRESH_EXPIRES_IN;
    var date := now;
    var matched := ParseDuration(expiresIn);
    if matched.None? {
      date := date + 7 * 86400;
      return date;
    }
    var value := matched.value.amount;
    match matched.value.unit {
      case Day => date := date + value * 86400;
      case Hour => date := date + value * 3600;
      case Minute => date := date + value * 60;
      case Second => date := date + value;
    }
    expiresAt := date;
  }

  /** Unset means "7d", and anything not of the form `<digits><s|m|h|d>` also means seven days. */
  lemma RefreshExpiryFallback(env: Env, now: int)
    requires env.refreshExpiresIn.None? || !IsDurationString(env.refreshExpiresIn.value)
    ensures RefreshTokenExpiry(env, now) == now + 7 * 86400
  {
    DefaultsAreDurations();
  }

  /** A well-formed setting `<n><unit>` gives now + n units. */
  lemma RefreshExpiryConfigured(env: Env, now: int)
    requires env.refreshExpiresIn.Some? && IsDurationString(env.refreshExpiresIn.value)
    ensures var s := env.refreshExpiresIn.value;
      RefreshTokenExpiry(env, now) == now + DigitsValue(s[..|s| - 1]) * UnitSeconds(UnitOf(s[|s| - 1]).value)
  {
  }

  /** A zero amount of any unit expires immediately. */
  lemma RefreshExpiryZero(env: Env, now: int, u: TimeUnit)
    requires env.refreshExpiresIn.Some? && ParseDuration(env.refreshExpiresIn.value) == Some(Duration(0, u))
    ensures RefreshTokenExpiry(env, now) == now
  {
  }

  /**
   * For a fixed unit, a larger amount never expires earlier: any two settings
   * that match the pattern, leading zeros included ("07d").
   */
  lemma RefreshExpiryMonotone(env1: Env, env2: Env, now: int, n1: nat, n2: nat, u: TimeUnit)
    requires env1.refreshExpiresIn.Some? && ParseDuration(env1.refreshExpiresIn.value) == Some(Duration(n1, u))
    requires env2.refreshExpiresIn.Some? && ParseDuration(env2.refreshExpiresIn.value) == Some(Duration(n2, u))
    requires n1 <= n2
    ensures RefreshTokenExpiry(env1, now) <= RefreshTokenExpiry(env2, now)
  {
    assert n1 * UnitSeconds(u) <= n2 * UnitSeconds(u);
  }

  /** A leading zero changes nothing: "07d" is read as seven days. */
  lemma RefreshExpiryLeadingZero(env: Env, now: int)
    requires env.refreshExpiresIn == Some("07d")
    ensures RefreshTokenExpiry(env, now) == now + 7 * 86400
  {
    assert "07d"[..2] == "07";
    assert DigitsValue("07") == 10 * DigitsValue("0") + 7;
    assert DigitsValue("0") == 10 * DigitsValue("") + 0;
  }
}
