/**
 * Password hashing and verification (src/lib/utils/password.ts).
 *
 * bcrypt is a parameter: `hash` and `compare` are whatever the library does,
 * each either resolving (Some) or rejecting (None). The only property of it the
 * model relies on is stated as the hypothesis CompareAcceptsOwnHash.
 */
module Password {
  import opened Wrappers
  import opened Json
  import opened JsText

  /** bcrypt work factor. */
  const SALT_ROUNDS: nat := 10

  /**
   * Precomputed bcrypt hash compared against when the stored hash is unusable,
   * written as its "$2b$10$" header followed by salt and digest.
   */
  const DUMMY_HASH: string := "$2b$10$" + "q7rl3eIBhd63SJLiTgiGnufchdJyGuqzR.yaNOkXMqsoEX4tC7oSS"

  /**
   * The bcrypt library. `hash(plaintext, rounds, salt)`: `salt` stands for the
   * randomness bcrypt draws itself. `compare(plaintext, hash)`: None when it rejects.
   */
  datatype Bcrypt = Bcrypt(hash: (string, nat, nat) -> Option<string>, compare: (string, string) -> Option<bool>)

  /** A hash bcrypt produced from x compares equal to x. */
  ghost predicate CompareAcceptsOwnHash(bc: Bcrypt)
  {
    forall x, rounds, salt :: bc.hash(x, rounds, salt).Some? ==> bc.compare(x, bc.hash(x, rounds, salt).value) == Some(true)
  }

  /** A hash bcrypt produced from y compares equal to nothing but y (collision freedom). */
  ghost predicate CompareRejectsOtherHashes(bc: Bcrypt)
  {
    forall x, y, rounds, salt ::
      bc.hash(y, rounds, salt).Some? && bc.compare(x, bc.hash(y, rounds, salt).value) == Some(true) ==> x == y
  }

  datatype HashError =
    | NotAString      // "Password must be a string"
    | EmptyPassword   // "Password cannot be empty"
    | HashRejected    // bcrypt.hash rejected

  /** `hashPassword`: refuse non-strings and blank strings, then bcrypt the trimmed password. */
  function HashPassword(bc: Bcrypt, password: Value, salt: nat): (r: Result<string, HashError>)
    ensures !password.Str? ==> r == Err(NotAString)
    ensures password.Str? && Trim(password.s) == [] ==> r == Err(EmptyPassword)
    ensures r.Ok? ==> password.Str? && Trim(password.s) != [] && bc.hash(Trim(password.s), SALT_ROUNDS, salt) == Some(r.value)
    ensures password.Str? && Trim(password.s) != [] ==> (r.Ok? <==> bc.hash(Trim(password.s), SALT_ROUNDS, salt).Some?)
  {
    if !password.Str? then Err(NotAString)
    else if !Truthy(password) || |Trim(password.s)| == 0 then Err(EmptyPassword)
    else
      match bc.hash(Trim(password.s), SALT_ROUNDS, salt)
      case None => Err(HashRejected)
      case Some(h) => Ok(h)
  }

  /** An empty or whitespace-only password is refused before bcrypt is asked. */
  lemma HashPasswordRejectsBlank(bc: Bcrypt, s: string, salt: nat)
    requires AllTrimmable(s)
    ensures HashPassword(bc, Str(s), salt) == Err(EmptyPassword)
  {
    TrimEmptyIffBlank(s);
  }

  /** Surrounding whitespace does not change what is hashed, nor whether hashing fails. */
  lemma HashPasswordIgnoresPadding(bc: Bcrypt, w1: string, s: string, w2: string, salt: nat)
    requires AllTrimmable(w1) && AllTrimmable(w2)
    ensures HashPassword(bc, Str(w1 + s + w2), salt) == HashPassword(bc, Str(s), salt)
  {
    var t := w1 + s + w2;
    TrimIgnoresPadding(w1, s, w2);
    assert Trim(t) == Trim(s);
  }

  /** The prefix test `/^\$2[ayb]\$\d{2}\$/`: nothing after the seventh character is looked at. */
  predicate HasBcryptPrefix(h: string)
  {
    |h| >= 7 && h[0] == '$' && h[1] == '2' && (h[2] == 'a' || h[2] == 'y' || h[2] == 'b')
    && h[3] == '$' && IsAsciiDigit(h[4]) && IsAsciiDigit(h[5]) && h[6] == '$'
  }

  /** What the stored-hash argument must be for verifyPassword to use it. */
  predicate UsableHash(hashed: Value)
  {
    Truthy(hashed) && hashed.Str? && HasBcryptPrefix(hashed.s)
  }

  /** The plaintext handed to compare: the trimmed password, or "" when it is missing or not a string. */
  function NormalizedPassword(password: Value): (p: string)
    ensures password.Str? ==> p == Trim(password.s)
    ensures !password.Str? ==> p == ""
  {
    if Truthy(password) && password.Str? then Trim(password.s) else ""
  }

  /** The hash handed to compare: the stored hash when usable, DUMMY_HASH otherwise. */
  function HashToCompare(hashed: Value): (h: string)
    ensures HasBcryptPrefix(h)
    ensures UsableHash(hashed) ==> h == hashed.s
    ensures !UsableHash(hashed) ==> h == DUMMY_HASH
  {
    if UsableHash(hashed) then hashed.s else DUMMY_HASH
  }

  /** One call of bcrypt.compare, with its two arguments. */
  datatype CompareCall = CompareCall(plaintext: string, hash: string)

  /** The outcome of verifyPassword and the compare calls it made, in order. */
  datatype Verification = Verification(matched: bool, compares: seq<CompareCall>)

  /**
   * `verifyPassword`: always exactly one compare; a dummy hash stands in for an
   * unusable stored hash and then forces false; a rejected compare is false; never throws.
   */
  function VerifyPassword(bc: Bcrypt, password: Value, hashed: Value): (r: Verification)
    ensures |r.compares| == 1
    ensures r.compares[0] == CompareCall(NormalizedPassword(password), HashToCompare(hashed))
    ensures !UsableHash(hashed) ==> !r.matched && r.compares[0].hash == DUMMY_HASH
    ensures hashed == Str(DUMMY_HASH) ==> !r.matched
    ensures UsableHash(hashed) && hashed.s != DUMMY_HASH ==>
      (r.matched <==> bc.compare(NormalizedPassword(password), hashed.s) == Some(true))
  {
    var normalizedPassword := NormalizedPassword(password);
    var hashToCompare := HashToCompare(hashed);
    var call := CompareCall(normalizedPassword, hashToCompare);
    match bc.compare(normalizedPassword, hashToCompare)
    case None => Verification(false, [call])
    case Some(result) =>
      if hashToCompare == DUMMY_HASH then Verification(false, [call]) else Verification(result, [call])
  }

  /** The dummy hash itself passes the prefix test, so it costs a real bcrypt comparison. */
  lemma DummyHashHasBcryptPrefix()
    ensures HasBcryptPrefix(DUMMY_HASH)
  {
  }

  /**
   * Every call of verifyPassword makes the same number of compare calls,
   * whatever the password, the stored hash and the library's answers.
   */
  lemma VerifyPasswordUniformCost(bc1: Bcrypt, p1: Value, h1: Value, bc2: Bcrypt, p2: Value, h2: Value)
    ensures |VerifyPassword(bc1, p1, h1).compares| == |VerifyPassword(bc2, p2, h2).compares| == 1
  {
  }

  /**
   * Hash-then-verify: a password verifies against the hash of another exactly
   * when the two agree after trimming, provided bcrypt produced a hash
   * that passes the prefix test and differs from DUMMY_HASH.
   */
  lemma VerifyHashedPassword(bc: Bcrypt, p: string, q: string, salt: nat)
    requires CompareAcceptsOwnHash(bc) && CompareRejectsOtherHashes(bc)
    requires HashPassword(bc, Str(q), salt).Ok?
    requires HasBcryptPrefix(HashPassword(bc, Str(q), salt).value)
    requires HashPassword(bc, Str(q), salt).value != DUMMY_HASH
    ensures VerifyPassword(bc, Str(p), Str(HashPassword(bc, Str(q), salt).value)).matched <==> Trim(p) == Trim(q)
  {
    var h := HashPassword(bc, Str(q), salt).value;
    assert bc.hash(Trim(q), SALT_ROUNDS, salt) == Some(h);
    assert UsableHash(Str(h));
    if Trim(p) == Trim(q) {
      assert bc.compare(Trim(q), bc.hash(Trim(q), SALT_ROUNDS, salt).value) == Some(true);
    }
  }

  /** The "if" half of VerifyHashedPassword needs only CompareAcceptsOwnHash. */
  lemma VerifyAcceptsOwnHash(bc: Bcrypt, p: string, q: string, salt: nat)
    requires CompareAcceptsOwnHash(bc)
    requires HashPassword(bc, Str(q), salt).Ok?
    requires HasBcryptPrefix(HashPassword(bc, Str(q), salt).value)
    requires HashPassword(bc, Str(q), salt).value != DUMMY_HASH
    requires Trim(p) == Trim(q)
    ensures VerifyPassword(bc, Str(p), Str(HashPassword(bc, Str(q), salt).value)).matched
  {
    var h := HashPassword(bc, Str(q), salt).value;
    assert bc.compare(Trim(q), bc.hash(Trim(q), SALT_ROUNDS, salt).value) == Some(true);
  }
}
