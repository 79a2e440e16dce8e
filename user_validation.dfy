/**
 * Request-body schemas (src/lib/validations/user.ts) and the zod issues they report.
 *
 * Every check chained on a string field runs and reports its own issue;
 * `trim` and `toLowerCase` rewrite the value at the point where they are
 * chained, so the checks before them see the value as sent.
 * Object fields are checked in the order the schema lists them.
 */
module UserValidation {
  import opened Json
  import opened JsText

  /** A zod issue: the path of keys to the offending value and its message. */
  datatype Issue = Issue(path: seq<string>, message: string)

  datatype Parse<T> = Parsed(data: T) | Rejected(issues: seq<Issue>)

  datatype RegisterInput = RegisterInput(name: string, email: string, password: string)
  datatype LoginInput = LoginInput(email: string, password: string)

  const NAME_TOO_SHORT: string := "Name must be at least 2 characters"
  const NAME_TOO_LONG: string := "Name must not exceed 255 characters"
  const INVALID_EMAIL: string := "Invalid email address"
  const EMAIL_TOO_LONG: string := "Email must not exceed 255 characters"
  const PASSWORD_TOO_SHORT: string := "Password must be at least 8 characters"
  const PASSWORD_TOO_LONG: string := "Password must not exceed 100 characters"
  const PASSWORD_TOO_WEAK: string :=
    "Password must contain at least one lowercase letter, one uppercase letter, and one number"
  const PASSWORD_REQUIRED: string := "Password is required"

  /** zod's message for a value of the wrong type; a missing key reads as "Required". */
  function TypeMessage(expected: string, v: Value): string
  {
    if v.Undefined? then "Required" else "Expected " + expected + ", received " + ParsedTypeName(v)
  }

  // ----------------------------------------------------- the password pattern

  datatype CharClass = LowerLetter | UpperLetter | Digit

  predicate InClass(c: char, cls: CharClass)
  {
    match cls
    case LowerLetter => IsAsciiLower(c)
    case UpperLetter => IsAsciiUpper(c)
    case Digit => IsAsciiDigit(c)
  }

  /**
   * The lookahead `(?=.*[X])` tried at the start of `s`: `.*` runs over
   * characters other than line terminators until it reaches one of class X.
   */
  predicate Lookahead(s: string, cls: CharClass)
  {
    s != [] && (InClass(s[0], cls) || (!IsLineTerminator(s[0]) && Lookahead(s[1..], cls)))
  }

  predicate NoLineTerminator(s: string)
  {
    forall j :: 0 <= j < |s| ==> !IsLineTerminator(s[j])
  }

  /** A character of class X occurs before the first line terminator of `s`. */
  predicate ClassBeforeLineBreak(s: string, cls: CharClass)
  {
    exists i :: 0 <= i < |s| && InClass(s[i], cls) && NoLineTerminator(s[..i])
  }

  lemma {:induction false} LookaheadMeaning(s: string, cls: CharClass)
    ensures Lookahead(s, cls) <==> ClassBeforeLineBreak(s, cls)
  {
    if s == [] {
    } else if InClass(s[0], cls) {
      assert s[..0] == [];
      assert InClass(s[0], cls) && NoLineTerminator(s[..0]);
    } else if IsLineTerminator(s[0]) {
      assert forall i :: 0 < i <= |s| ==> s[..i][0] == s[0];
    } else {
      LookaheadMeaning(s[1..], cls);
      if ClassBeforeLineBreak(s, cls) {
        var i :| 0 <= i < |s| && InClass(s[i], cls) && NoLineTerminator(s[..i]);
        assert i > 0;
        assert s[1..][..i - 1] == s[1..i];
        assert forall j :: 0 <= j < i - 1 ==> s[1..i][j] == s[..i][j + 1];
        assert InClass(s[1..][i - 1], cls);
      }
      if ClassBeforeLineBreak(s[1..], cls) {
        var i :| 0 <= i < |s[1..]| && InClass(s[1..][i], cls) && NoLineTerminator(s[1..][..i]);
        assert s[..i + 1] == [s[0]] + s[1..][..i];
        assert InClass(s[i + 1], cls);
      }
    }
  }

  /** `/^(?=.*[a-z])(?=.*[A-Z])(?=.*\d)/.test(s)` */
  predicate MatchesPasswordPattern(s: string)
  {
    Lookahead(s, LowerLetter) && Lookahead(s, UpperLetter) && Lookahead(s, Digit)
  }

  // ------------------------------------------------------------- field rules

  /** The string rules of the two schemas. */
  datatype StringRule = NameRule | EmailRule | RegisterPasswordRule | LoginPasswordRule

  /** Messages of the checks a string fails, in the order they are chained. */
  function Messages(rule: StringRule, isEmail: string -> bool, s: string): seq<string>
  {
    var n := Utf16Length(s);
    match rule
    case NameRule =>
      (if n < 2 then [NAME_TOO_SHORT] else []) + (if n > 255 then [NAME_TOO_LONG] else [])
    case EmailRule =>
      (if !isEmail(s) then [INVALID_EMAIL] else []) + (if n > 255 then [EMAIL_TOO_LONG] else [])
    case RegisterPasswordRule =>
      (if n < 8 then [PASSWORD_TOO_SHORT] else []) + (if n > 100 then [PASSWORD_TOO_LONG] else [])
      + (if !MatchesPasswordPattern(s) then [PASSWORD_TOO_WEAK] else [])
    case LoginPasswordRule =>
      if n < 1 then [PASSWORD_REQUIRED] else []
  }

  /** The rule of each field stated on the value as sent. */
  predicate Passes(rule: StringRule, isEmail: string -> bool, s: string)
  {
    var n := Utf16Length(s);
    match rule
    case NameRule => 2 <= n <= 255
    case EmailRule => isEmail(s) && n <= 255
    case RegisterPasswordRule =>
      8 <= n <= 100 && ClassBeforeLineBreak(s, LowerLetter) && ClassBeforeLineBreak(s, UpperLetter)
      && ClassBeforeLineBreak(s, Digit)
    case LoginPasswordRule => n >= 1
  }

  /** A string draws no message exactly when it meets its rule. */
  lemma MessagesMeaning(rule: StringRule, isEmail: string -> bool, s: string)
    ensures Messages(rule, isEmail, s) == [] <==> Passes(rule, isEmail, s)
  {
    if rule == RegisterPasswordRule {
      LookaheadMeaning(s, LowerLetter);
      LookaheadMeaning(s, UpperLetter);
      LookaheadMeaning(s, Digit);
    }
  }

  /** `.toLowerCase().trim()`, the email normalisation both schemas chain last. */
  function NormalizeEmail(s: string): string
  {
    Trim(Lower(s))
  }

  /** The value a string field yields once it passes: the transforms chained after the checks. */
  function Output(rule: StringRule, s: string): string
  {
    match rule
    case NameRule => Trim(s)
    case EmailRule => NormalizeEmail(s)
    case RegisterPasswordRule => s
    case LoginPasswordRule => s
  }

  function AtKey(key: string, messages: seq<string>): (issues: seq<Issue>)
    ensures |issues| == |messages|
    ensures forall i :: 0 <= i < |issues| ==> issues[i] == Issue([key], messages[i])
  {
    seq(|messages|, i requires 0 <= i < |messages| => Issue([key], messages[i]))
  }

  /** Issues for one `z.string()` field under `key`: one type issue, or one issue per failed check. */
  function FieldIssues(key: string, rule: StringRule, isEmail: string -> bool, v: Value): (issues: seq<Issue>)
    ensures issues == [] <==> v.Str? && Messages(rule, isEmail, v.s) == []
    ensures forall i :: 0 <= i < |issues| ==> issues[i].path == [key]
  {
    if v.Str? then AtKey(key, Messages(rule, isEmail, v.s)) else [Issue([key], TypeMessage("string", v))]
  }

  // ----------------------------------------------------------------- schemas

  /**
   * `registerUserSchema.safeParse(body)`. The `role` key is accepted with any
   * value (or none) and does not reach the parsed data; other unknown keys are dropped.
   */
  function ParseRegister(isEmail: string -> bool, body: Value): (r: Parse<RegisterInput>)
    ensures r.Rejected? ==> r.issues != []
  {
    if !body.Obj? then Rejected([Issue([], TypeMessage("object", body))])
    else
      var name := Get(body.fields, "name");
      var email := Get(body.fields, "email");
      var password := Get(body.fields, "password");
      var issues := FieldIssues("name", NameRule, isEmail, name)
        + FieldIssues("email", EmailRule, isEmail, email)
        + FieldIssues("password", RegisterPasswordRule, isEmail, password);
      if issues == [] then
        Parsed(RegisterInput(Output(NameRule, name.s), Output(EmailRule, email.s), Output(RegisterPasswordRule, password.s)))
      else Rejected(issues)
  }

  /** `loginUserSchema.safeParse(body)`. */
  function ParseLogin(isEmail: string -> bool, body: Value): (r: Parse<LoginInput>)
    ensures r.Rejected? ==> r.issues != []
  {
    if !body.Obj? then Rejected([Issue([], TypeMessage("object", body))])
    else
      var email := Get(body.fields, "email");
      var password := Get(body.fields, "password");
      var issues := FieldIssues("email", EmailRule, isEmail, email)
        + FieldIssues("password", LoginPasswordRule, isEmail, password);
      if issues == [] then Parsed(LoginInput(Output(EmailRule, email.s), Output(LoginPasswordRule, password.s)))
      else Rejected(issues)
  }

  /** The register rules stated directly on the values sent. */
  predicate RegisterFieldsValid(isEmail: string -> bool, fields: map<string, Value>)
  {
    var name := Get(fields, "name");
    var email := Get(fields, "email");
    var password := Get(fields, "password");
    && name.Str? && 2 <= Utf16Length(name.s) <= 255
    && email.Str? && isEmail(email.s) && Utf16Length(email.s) <= 255
    && password.Str? && 8 <= Utf16Length(password.s) <= 100
    && ClassBeforeLineBreak(password.s, LowerLetter)
    && ClassBeforeLineBreak(password.s, UpperLetter)
    && ClassBeforeLineBreak(password.s, Digit)
  }

  /**
   * The register schema accepts exactly the objects meeting the rules, judged
   * on the values as sent; it yields the trimmed name, the lower-cased and
   * trimmed email and the password untouched.
   */
  lemma RegisterSchemaMeaning(isEmail: string -> bool, body: Value)
    ensures ParseRegister(isEmail, body).Parsed? <==> body.Obj? && RegisterFieldsValid(isEmail, body.fields)
    ensures ParseRegister(isEmail, body).Parsed? ==>
      ParseRegister(isEmail, body).data == RegisterInput(
        Trim(Get(body.fields, "name").s), NormalizeEmail(Get(body.fields, "email").s), Get(body.fields, "password").s)
  {
    if body.Obj? {
      var name := Get(body.fields, "name");
      var email := Get(body.fields, "email");
      var password := Get(body.fields, "password");
      var a := FieldIssues("name", NameRule, isEmail, name);
      var b := FieldIssues("email", EmailRule, isEmail, email);
      var c := FieldIssues("password", RegisterPasswordRule, isEmail, password);
      assert a + b + c == [] <==> a == [] && b == [] && c == [];
      if name.Str? { MessagesMeaning(NameRule, isEmail, name.s); }
      if email.Str? { MessagesMeaning(EmailRule, isEmail, email.s); }
      if password.Str? { MessagesMeaning(RegisterPasswordRule, isEmail, password.s); }
    }
  }

  /** The login rules stated directly on the values sent: no complexity rule and no trim of the password. */
  predicate LoginFieldsValid(isEmail: string -> bool, fields: map<string, Value>)
  {
    var email := Get(fields, "email");
    var password := Get(fields, "password");
    && email.Str? && isEmail(email.s) && Utf16Length(email.s) <= 255
    && password.Str? && Utf16Length(password.s) >= 1
  }

  lemma LoginSchemaMeaning(isEmail: string -> bool, body: Value)
    ensures ParseLogin(isEmail, body).Parsed? <==> body.Obj? && LoginFieldsValid(isEmail, body.fields)
    ensures ParseLogin(isEmail, body).Parsed? ==>
      ParseLogin(isEmail, body).data == LoginInput(NormalizeEmail(Get(body.fields, "email").s), Get(body.fields, "password").s)
  {
    if body.Obj? {
      var email := Get(body.fields, "email");
      var password := Get(body.fields, "password");
      var b := FieldIssues("email", EmailRule, isEmail, email);
      var c := FieldIssues("password", LoginPasswordRule, isEmail, password);
      assert b + c == [] <==> b == [] && c == [];
      if email.Str? { MessagesMeaning(EmailRule, isEmail, email.s); }
      if password.Str? { MessagesMeaning(LoginPasswordRule, isEmail, password.s); }
    }
  }

  /** Whatever `role` holds, and whether it is there at all, the register parse is the same. */
  lemma RegisterIgnoresRole(isEmail: string -> bool, fields: map<string, Value>, role: Value)
    ensures ParseRegister(isEmail, Obj(fields["role" := role])) == ParseRegister(isEmail, Obj(fields))
    ensures ParseRegister(isEmail, Obj(fields - {"role"})) == ParseRegister(isEmail, Obj(fields))
  {
    var with := fields["role" := role];
    var without := fields - {"role"};
    assert Get(with, "name") == Get(fields, "name") == Get(without, "name");
    assert Get(with, "email") == Get(fields, "email") == Get(without, "email");
    assert Get(with, "password") == Get(fields, "password") == Get(without, "password");
  }

  /** A body the register schema accepts is accepted by the login schema, with the same email and password. */
  lemma RegisterBodyPassesLogin(isEmail: string -> bool, body: Value)
    requires ParseRegister(isEmail, body).Parsed?
    ensures ParseLogin(isEmail, body).Parsed?
    ensures ParseLogin(isEmail, body).data.email == ParseRegister(isEmail, body).data.email
    ensures ParseLogin(isEmail, body).data.password == ParseRegister(isEmail, body).data.password
  {
    RegisterSchemaMeaning(isEmail, body);
    LoginSchemaMeaning(isEmail, body);
  }

  /** A password the register schema accepts is never blank after trimming (it holds a lowercase letter). */
  lemma RegisteredPasswordNotBlank(isEmail: string -> bool, body: Value)
    requires ParseRegister(isEmail, body).Parsed?
    ensures Trim(ParseRegister(isEmail, body).data.password) != []
  {
    var password := Get(body.fields, "password");
    assert FieldIssues("password", RegisterPasswordRule, isEmail, password) == [];
    assert Lookahead(password.s, LowerLetter);
    LookaheadNotBlank(password.s, LowerLetter);
    TrimEmptyIffBlank(password.s);
  }

  lemma {:induction false} LookaheadNotBlank(s: string, cls: CharClass)
    requires Lookahead(s, cls)
    ensures !AllTrimmable(s)
  {
    if !InClass(s[0], cls) {
      LookaheadNotBlank(s[1..], cls);
      var i :| 0 <= i < |s[1..]| && !IsTrimmable(s[1..][i]);
      assert s[i + 1] == s[1..][i];
    }
  }

  /** Normalising an email a second time changes nothing. */
  lemma NormalizeEmailIdempotent(s: string)
    ensures NormalizeEmail(NormalizeEmail(s)) == NormalizeEmail(s)
  {
    var l := Lower(s);
    TrimKeepsNoAsciiUpper(l);
    LowerOfLower(Trim(l));
    TrimIdempotent(l);
  }

  // ------------------------------------------------------- grouping of issues

  /** `issue.path[0]` used as an object key: an empty path gives the key "undefined". */
  function FieldOf(issue: Issue): string
  {
    if issue.path == [] then "undefined" else issue.path[0]
  }

  function Fields(issues: seq<Issue>): set<string>
  {
    set x | x in issues :: FieldOf(x)
  }

  /** The messages of the issues whose field is k, in issue order. */
  function MessagesFor(issues: seq<Issue>, k: string): seq<string>
  {
    if issues == [] then []
    else
      var last := issues[|issues| - 1];
      MessagesFor(issues[..|issues| - 1], k) + (if FieldOf(last) == k then [last.message] else [])
  }

  /** The error map the register route answers with: each field's messages in issue order. */
  function GroupedErrors(issues: seq<Issue>): (errors: map<string, seq<string>>)
    ensures errors.Keys == Fields(issues)
  {
    map k | k in Fields(issues) :: MessagesFor(issues, k)
  }

  lemma {:induction false} MessagesForConcat(a: seq<Issue>, b: seq<Issue>, k: string)
    ensures MessagesFor(a + b, k) == MessagesFor(a, k) + MessagesFor(b, k)
  {
    if b == [] {
      assert a + b == a;
    } else {
      var last := b[|b| - 1];
      assert (a + b)[..|a + b| - 1] == a + b[..|b| - 1];
      assert (a + b)[|a + b| - 1] == last;
      MessagesForConcat(a, b[..|b| - 1], k);
    }
  }

  /**
   * Issue i appears in its own field's list, right after the messages of the
   * earlier issues of that field: no message is lost, duplicated or reordered.
   */
  lemma MessagesForPosition(issues: seq<Issue>, i: nat)
    requires i < |issues|
    ensures var f := FieldOf(issues[i]);
      var j := |MessagesFor(issues[..i], f)|;
      j < |MessagesFor(issues, f)| && MessagesFor(issues, f)[j] == issues[i].message
  {
    var f := FieldOf(issues[i]);
    assert issues == issues[..i] + [issues[i]] + issues[i + 1..];
    MessagesForConcat(issues[..i] + [issues[i]], issues[i + 1..], f);
    MessagesForConcat(issues[..i], [issues[i]], f);
    assert MessagesFor([issues[i]], f) == [issues[i].message] by {
      assert [issues[i]][..0] == [];
    }
  }

  /** Every message listed under k is the message of an issue whose field is k. */
  lemma {:induction false} MessagesForSources(issues: seq<Issue>, k: string, j: nat)
    requires j < |MessagesFor(issues, k)|
    ensures exists i :: 0 <= i < |issues| && FieldOf(issues[i]) == k && issues[i].message == MessagesFor(issues, k)[j]
  {
    var n := |issues|;
    var init := issues[..n - 1];
    if j < |MessagesFor(init, k)| {
      MessagesForSources(init, k, j);
      var i :| 0 <= i < |init| && FieldOf(init[i]) == k && init[i].message == MessagesFor(init, k)[j];
      assert issues[i] == init[i];
    } else {
      assert FieldOf(issues[n - 1]) == k && issues[n - 1].message == MessagesFor(issues, k)[j];
    }
  }

  /** A key no issue names has no messages. */
  lemma {:induction false} MessagesForOutside(issues: seq<Issue>, k: string)
    requires k !in Fields(issues)
    ensures MessagesFor(issues, k) == []
  {
    if issues != [] {
      var n := |issues|;
      var init := issues[..n - 1];
      assert issues[n - 1] in issues;
      assert k !in Fields(init) by {
        forall j | 0 <= j < |init| ensures FieldOf(init[j]) != k {
          assert init[j] == issues[j];
          assert issues[j] in issues;
        }
      }
      MessagesForOutside(init, k);
    }
  }

  /** Grouping one more issue appends its message to its field's list, creating the list if needed. */
  lemma GroupedErrorsSnoc(issues: seq<Issue>, x: Issue)
    ensures var g := GroupedErrors(issues);
      GroupedErrors(issues + [x]) == g[FieldOf(x) := (if FieldOf(x) in g then g[FieldOf(x)] else []) + [x.message]]
  {
    var all := issues + [x];
    var g := GroupedErrors(issues);
    var f := FieldOf(x);
    var expected := g[f := (if f in g then g[f] else []) + [x.message]];
    var grown := GroupedErrors(all);
    assert all[..|all| - 1] == issues;
    assert Fields(all) == Fields(issues) + {f} by {
      assert forall y :: y in all <==> y in issues || y == x;
    }
    assert f !in g ==> MessagesFor(issues, f) == [] by {
      if f !in g {
        MessagesForOutside(issues, f);
      }
    }
    assert grown.Keys == expected.Keys;
    forall k | k in grown ensures grown[k] == expected[k] {
      assert grown[k] == MessagesFor(issues, k) + (if f == k then [x.message] else []);
    }
  }

  /** The issues that name a field (zod's `flatten` files the others under formErrors). */
  function WithPath(issues: seq<Issue>): (r: seq<Issue>)
    ensures forall y :: y in r <==> y in issues && y.path != []
  {
    if issues == [] then []
    else
      var rest := WithPath(issues[1..]);
      assert forall y :: y in issues <==> y == issues[0] || y in issues[1..];
      (if issues[0].path != [] then [issues[0]] else []) + rest
  }

  /** `error.flatten().fieldErrors`: the issues with a path, grouped by their first key. */
  function FlattenFieldErrors(issues: seq<Issue>): (errors: map<string, seq<string>>)
    ensures errors.Keys == set y | y in issues && y.path != [] :: y.path[0]
  {
    var named := WithPath(issues);
    assert Fields(named) == set y | y in issues && y.path != [] :: y.path[0] by {
      forall k | k in Fields(named) ensures exists y :: y in issues && y.path != [] && k == y.path[0] {
        var y :| y in named && FieldOf(y) == k;
        assert y in issues && y.path != [];
      }
      forall y | y in issues && y.path != [] ensures y.path[0] in Fields(named) {
        assert y in named && FieldOf(y) == y.path[0];
      }
    }
    GroupedErrors(named)
  }

  /** Keeping only the issues with a path leaves every named field's message list as it was. */
  lemma {:induction false} WithPathMessages(issues: seq<Issue>, k: string)
    requires k != "undefined"
    ensures MessagesFor(WithPath(issues), k) == MessagesFor(issues, k)
  {
    if issues != [] {
      var x := issues[0];
      var head := if x.path != [] then [x] else [];
      assert issues == [x] + issues[1..];
      MessagesForConcat([x], issues[1..], k);
      MessagesForConcat(head, WithPath(issues[1..]), k);
      WithPathMessages(issues[1..], k);
      assert MessagesFor([x], k) == (if FieldOf(x) == k then [x.message] else []) by {
        assert [x][..0] == [];
      }
      assert MessagesFor(head, k) == MessagesFor([x], k);
    }
  }

  /**
   * Each key of `flatten().fieldErrors` other than "undefined" (which no schema
   * field uses) lists exactly the messages of that field's issues, in issue order,
   * the same lists the register route builds.
   */
  lemma FlattenFieldErrorsMessages(issues: seq<Issue>, k: string)
    requires k in FlattenFieldErrors(issues) && k != "undefined"
    ensures FlattenFieldErrors(issues)[k] == MessagesFor(issues, k) == GroupedErrors(issues)[k]
  {
    WithPathMessages(issues, k);
    var y :| y in issues && y.path != [] && y.path[0] == k;
    assert FieldOf(y) == k;
  }
}
