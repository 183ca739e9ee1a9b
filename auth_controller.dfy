/**
 * `AuthController`: the four request handlers. Each reads the fields it
 * needs from the (validated) body, makes exactly one service call, and
 * replies with the token pair — 201 for the registrations, 200 for login
 * and refresh — or lets the service's error reach `controllerWrapper`.
 */
module AuthController {
  import opened Wrappers
  import opened Errors
  import opened Requests
  import opened Text
  import opened Utf8
  import opened Hashing
  import opened Tokens
  import opened Accounts
  import opened AccountProperties
  import opened Service
  import opened Http
  import opened ControllerWrapper
  import opened AuthMiddleware

  datatype Endpoint = RegisterWithEmail | RegisterWithDevice | Login | RefreshToken

  /** The status a handler replies with when the service returns tokens. */
  function SuccessStatus(endpoint: Endpoint): int {
    match endpoint
    case RegisterWithEmail => 201
    case RegisterWithDevice => 201
    case Login => 200
    case RefreshToken => 200
  }

  /**
   * What the wrapped handler sends for the service's result: the tokens
   * with the endpoint's success status, or the wrapper's answer to the
   * thrown error.
   */
  function Reply(endpoint: Endpoint, result: Result<TokenPair, Error>): (h: Handled)
    ensures result.Success? ==> h == Handled(Response(SuccessStatus(endpoint), Tokens(result.value)), false)
    ensures result.Success? && (endpoint == RegisterWithEmail || endpoint == RegisterWithDevice) ==> h.response.status == 201
    ensures result.Success? && (endpoint == Login || endpoint == RefreshToken) ==> h.response.status == 200
    ensures result.Failure? ==> h == Wrap(Threw(result.error))
  {
    match result
    case Success(tokens) => Wrap(Completed(Response(SuccessStatus(endpoint), Tokens(tokens))))
    case Failure(e) => Wrap(Threw(e))
  }

  // ------------------------------------------------------------------ login

  /** The service call `login` makes. */
  datatype LoginCall =
    | WithEmailAndPassword(email: Field, password: Field, deviceId: Field)
    | WithDeviceId(deviceId: Field)

  /**
   * `login`'s choice: with a truthy device id and a truthy email, the
   * email login with the device id forwarded; with a truthy device id
   * alone, the device login; otherwise the email login without a device id.
   */
  function LoginDispatch(b: Body): (c: LoginCall)
    ensures Truthy(b.deviceId) && Truthy(b.email) ==> c == WithEmailAndPassword(b.email, b.password, b.deviceId)
    ensures Truthy(b.deviceId) && !Truthy(b.email) ==> c == WithDeviceId(b.deviceId)
    ensures !Truthy(b.deviceId) ==> c == WithEmailAndPassword(b.email, b.password, Absent)
  {
    if Truthy(b.deviceId) && Truthy(b.email) then WithEmailAndPassword(b.email, b.password, b.deviceId)
    else if Truthy(b.deviceId) then WithDeviceId(b.deviceId)
    else WithEmailAndPassword(b.email, b.password, Absent)
  }

  /** The one service call, as a transition of the table. */
  function RunLogin(db: Db, c: LoginCall, now: int): (s: Step)
    requires Valid(db)
    ensures Valid(s.db)
    ensures s.result.Failure? ==> s.db == db
  {
    match c
    case WithEmailAndPassword(email, password, deviceId) => LoginWithEmailAndPassword(db, email, password, deviceId, now)
    case WithDeviceId(deviceId) => LoginWithDeviceId(db, deviceId, now)
  }

  /**
   * A falsy device id — the empty string, `null`, 0, `false` — is the same
   * to `login` as none at all, and the device login is used exactly when
   * the device id is truthy and the email is not.
   */
  lemma LoginDispatchIgnoresFalsyDeviceId(b: Body, falsy: Field)
    requires !Truthy(falsy)
    ensures LoginDispatch(b.(deviceId := falsy)) == LoginDispatch(b.(deviceId := Absent))
    ensures LoginDispatch(b).WithDeviceId? <==> Truthy(b.deviceId) && !Truthy(b.email)
    ensures LoginDispatch(b).WithEmailAndPassword? ==>
      LoginDispatch(b).email == b.email && LoginDispatch(b).password == b.password &&
      (LoginDispatch(b).deviceId == b.deviceId || LoginDispatch(b).deviceId == Absent)
  {
  }

  // ----------------------------------------------------------------- refresh

  /**
   * The token the refresh handler hands on: the body's `refreshToken`,
   * unchanged, as the service's verifier reads it. `decode` stands for
   * reading a JWT string; a value that is not a string is no token.
   */
  function Presented(f: Field, decode: string -> Option<Token<Payload>>): (t: Option<Token<Payload>>)
    ensures f.Str? ==> t == decode(f.s)
    ensures !f.Str? ==> t.None?
  {
    if f.Str? then decode(f.s) else None
  }

  // ---------------------------------------------------------------- handlers

  /** `registerWithEmail`. */
  method HandleRegisterWithEmail(svc: AuthService, b: Body, salt: nat, now: int) returns (h: Handled)
    requires svc.Valid()
    modifies svc
    ensures svc.Valid()
    ensures var s := Accounts.RegisterUserWithEmail(old(svc.State()), b, salt, now);
      svc.State() == s.db && h == Reply(RegisterWithEmail, s.result)
  {
    var r := svc.RegisterUserWithEmail(b, salt, now);
    h := Reply(RegisterWithEmail, r);
  }

  /** `registerWithDevice`. */
  method HandleRegisterWithDevice(svc: AuthService, b: Body, now: int) returns (h: Handled)
    requires svc.Valid()
    modifies svc
    ensures svc.Valid()
    ensures var s := Accounts.RegisterUserWithDevice(old(svc.State()), b, now);
      svc.State() == s.db && h == Reply(RegisterWithDevice, s.result)
  {
    var r := svc.RegisterUserWithDevice(b, now);
    h := Reply(RegisterWithDevice, r);
  }

  /** `login`: one service call, chosen by `LoginDispatch`. */
  method HandleLogin(svc: AuthService, b: Body, now: int) returns (h: Handled)
    requires svc.Valid()
    modifies svc
    ensures svc.Valid()
    ensures var s := RunLogin(old(svc.State()), LoginDispatch(b), now);
      svc.State() == s.db && h == Reply(Login, s.result)
  {
    var r;
    if Truthy(b.deviceId) && Truthy(b.email) {
      r := svc.LoginWithEmailAndPassword(b.email, b.password, b.deviceId, now);
    } else if Truthy(b.deviceId) {
      r := svc.LoginWithDeviceId(b.deviceId, now);
    } else {
      r := svc.LoginWithEmailAndPassword(b.email, b.password, Absent, now);
    }
    h := Reply(Login, r);
  }

  /** `refreshToken`. */
  method HandleRefreshToken(svc: AuthService, b: Body, decode: string -> Option<Token<Payload>>, now: int) returns (h: Handled)
    requires svc.Valid()
    modifies svc
    ensures svc.Valid()
    ensures var s := Accounts.RefreshAccessToken(old(svc.State()), Presented(b.refreshToken, decode), now);
      svc.State() == s.db && h == Reply(RefreshToken, s.result)
  {
    var r := svc.RefreshAccessToken(Presented(b.refreshToken, decode), now);
    h := Reply(RefreshToken, r);
  }

  // ------------------------------------------------- registration then login

  /**
   * A user who registered by email, through the registration validators,
   * can then log in with the same email and password and no device id:
   * the login body passes `validateLogin` and the login succeeds. Of
   * `isEmail` the lemma asks only that it reject the empty string, as
   * validator.js's test does.
   */
  lemma RegisteredUserCanLogIn(db: Db, reg: Body, isEmail: string -> bool, salt: nat, now: int, later: int)
    requires Valid(db) && !isEmail("")
    requires ValidateEmailRegistration(reg, isEmail).Next?
    requires RegisterUserWithEmail(db, ValidateEmailRegistration(reg, isEmail).body, salt, now).result.Success?
    ensures var s := RegisterUserWithEmail(db, ValidateEmailRegistration(reg, isEmail).body, salt, now);
      var login := Body(reg.email, reg.password, Absent, Absent, Absent, Absent);
      && ValidateLogin(login, isEmail) == Next(login)
      && LoginDispatch(login) == WithEmailAndPassword(reg.email, reg.password, Absent)
      && RunLogin(s.db, LoginDispatch(login), later).result.Success?
  {
    var data := ValidateEmailRegistration(reg, isEmail).body;
    EmailRegistrationAcceptsIff(reg, isEmail);
    RegistrationStoresPassword(db, data, salt, now);
    var s := RegisterUserWithEmail(db, data, salt, now);
    var password := reg.password.s;
    var k :| 0 <= k < |password| && 'a' <= password[k] <= 'z';
    assert !IsWhitespace(password[k]);
    var login := Body(reg.email, reg.password, Absent, Absent, Absent, Absent);
    LoginWithEmailPasses(login, isEmail);
    var id :| id in s.db.users && s.db.users[id].email == Some(data.email.s) &&
      s.db.users[id].password == Some(HashPassword(data.password.s, salt));
    EmailLoginSuccess(s.db, reg.email.s, password, Absent, later, id);
  }

  /**
   * A password that starts with whitespace, or one of at most 72 bytes
   * without NUL characters that ends with whitespace, no longer checks
   * against its own digest once trimmed: the first character changes, or
   * the key gets its NUL terminator earlier.
   */
  lemma TrimmedPasswordFails(password: string, salt: nat)
    requires Trim(password) != []
    requires IsWhitespace(password[0]) || (NoNul(password) && IsWhitespace(password[|password| - 1]) && |Encode(password)| <= KeyLength)
    ensures !CheckPassword(Trim(password), HashPassword(password, salt))
  {
    if IsWhitespace(password[0]) {
      LeadingSpaceTrimFails(password, salt);
    } else {
      TrailingSpaceTrimFails(password, salt);
    }
  }

  /** Trimming a leading space changes the first character, so the check fails. */
  lemma LeadingSpaceTrimFails(password: string, salt: nat)
    requires Trim(password) != [] && IsWhitespace(password[0])
    ensures !CheckPassword(Trim(password), HashPassword(password, salt))
  {
    var t := Trim(password);
    assert t[0] == TrimStart(password)[0];
    ChangedFirstCharacterFails(password, t, salt);
  }

  /** Trimming a trailing space from a short NUL-free password shortens its bytes, so the check fails. */
  lemma TrailingSpaceTrimFails(password: string, salt: nat)
    requires Trim(password) != [] && NoNul(password)
    requires IsWhitespace(password[|password| - 1]) && |Encode(password)| <= KeyLength
    ensures !CheckPassword(Trim(password), HashPassword(password, salt))
  {
    TrimmedEncodesShorter(password);
    ShorterInputFails(password, Trim(password), salt);
  }

  /** A password that ends with whitespace has fewer UTF-8 bytes once trimmed. */
  lemma TrimmedEncodesShorter(password: string)
    requires password != [] && IsWhitespace(password[|password| - 1])
    ensures |Encode(Trim(password))| < |Encode(password)|
  {
    var t := Trim(password);
    var i := |password| - |TrimStart(password)|;
    var j := i + |t|;
    assert password[i..j] == t;
    TrimShortensPadded(password);
    EncodeInfixShorter(password, i, j);
  }

  /**
   * A password of more than 72 bytes padded only at its end still checks
   * once trimmed, when what remains has at least 72 bytes: bcrypt never
   * reads the whitespace.
   */
  lemma LongTrimmedPasswordChecks(password: string, salt: nat)
    requires password != [] && !IsWhitespace(password[0])
    requires |Encode(Trim(password))| >= KeyLength
    ensures CheckPassword(Trim(password), HashPassword(password, salt))
  {
    var t := Trim(password);
    assert TrimStart(password) == password;
    assert password == t + password[|t|..];
    AppendedTextIgnored(t, password[|t|..], salt);
  }

  /**
   * The login body made of a validated registration's email (a string)
   * and password, with no device id, passes `validateLogin` as written with its password
   * trimmed, and the trimmed password is not empty.
   */
  lemma RegisteredLoginIsTrimmed(reg: Body, isEmail: string -> bool)
    requires !isEmail("") && ValidateEmailRegistration(reg, isEmail).Next? && reg.email.Str?
    ensures reg.password.Str? && Trim(reg.password.s) != []
    ensures var login := Body(reg.email, reg.password, Absent, Absent, Absent, Absent);
      ValidateLoginAsWritten(login, isEmail) == Next(login.(password := Str(Trim(reg.password.s))))
  {
    EmailRegistrationAcceptsIff(reg, isEmail);
    var password := reg.password.s;
    var k :| 0 <= k < |password| && 'a' <= password[k] <= 'z';
    assert !IsWhitespace(password[k]);
    TrimEmptyIffBlank(password);
    LoginWithEmailPassesAsWritten(Body(reg.email, reg.password, Absent, Absent, Absent, Absent), isEmail);
  }

  /**
   * A row holding the digest of a padded password refuses the trimmed
   * password with 401 and no change.
   */
  lemma TrimmedPasswordRefused(db: Db, email: string, password: string, salt: nat, now: int)
    requires Valid(db) && Trim(password) != []
    requires IsWhitespace(password[0]) || (NoNul(password) && IsWhitespace(password[|password| - 1]) && |Encode(password)| <= KeyLength)
    requires exists id :: id in db.users && db.users[id].email == Some(email) && db.users[id].password == Some(HashPassword(password, salt))
    ensures LoginWithEmailAndPassword(db, Str(email), Str(Trim(password)), Absent, now) == Step(db, Failure(InvalidEmailOrPassword))
  {
    TrimmedPasswordFails(password, salt);
    EmailLoginRejects(db, email, Str(Trim(password)), Absent, now);
  }

  /**
   * As written, `validateLogin` trims the password it passes on, while
   * registration stores the hash of the password as typed. A user who
   * registered with a password that starts with whitespace (the
   * registration rules accept " Password1", see `AuthMiddleware.SpacedPasswordIsStrong`),
   * or that ends with whitespace and has at most 72 bytes and no NUL
   * character, and who logs in with the same email and password and no
   * device id, is refused with 401: the service checks the trimmed
   * password. (Past 72 bytes bcrypt may not see the difference, see
   * `LongTrimmedPasswordChecks`.)
   */
  lemma TrimmedPasswordLocksOut(db: Db, reg: Body, isEmail: string -> bool, salt: nat, now: int, later: int)
    requires Valid(db) && !isEmail("")
    requires reg.password.Str? && reg.password.s != []
    requires IsWhitespace(reg.password.s[0]) ||
      (NoNul(reg.password.s) && IsWhitespace(reg.password.s[|reg.password.s| - 1]) && |Encode(reg.password.s)| <= KeyLength)
    requires ValidateEmailRegistration(reg, isEmail).Next?
    requires RegisterUserWithEmail(db, ValidateEmailRegistration(reg, isEmail).body, salt, now).result.Success?
    ensures var s := RegisterUserWithEmail(db, ValidateEmailRegistration(reg, isEmail).body, salt, now);
      var login := Body(reg.email, reg.password, Absent, Absent, Absent, Absent);
      var sanitized := login.(password := Str(Trim(reg.password.s)));
      && ValidateLoginAsWritten(login, isEmail) == Next(sanitized)
      && RunLogin(s.db, LoginDispatch(sanitized), later) == Step(s.db, Failure(InvalidEmailOrPassword))
  {
    var data := ValidateEmailRegistration(reg, isEmail).body;
    var s := RegisterUserWithEmail(db, data, salt, now);
    var password := reg.password.s;
    assert reg.email.Str? && data.email == reg.email && data.password == reg.password by {
      RegistrationStoresPassword(db, data, salt, now);
    }
    assert exists id ::
      && id in s.db.users
      && s.db.users[id].email == Some(reg.email.s)
      && s.db.users[id].password == Some(HashPassword(password, salt)) by {
      RegistrationStoresPassword(db, data, salt, now);
    }
    var login := Body(reg.email, reg.password, Absent, Absent, Absent, Absent);
    var sanitized := login.(password := Str(Trim(password)));
    RegisteredLoginIsTrimmed(reg, isEmail);
    assert LoginDispatch(sanitized) == WithEmailAndPassword(reg.email, Str(Trim(password)), Absent);
    TrimmedPasswordRefused(s.db, reg.email.s, password, salt, later);
  }

  // ------------------------------------------------- a reachable lockout

  /** The email test of the sample below: only "a@b.c" is a valid email. */
  predicate IsSampleEmail(s: string) {
    s == "a@b.c"
  }

  /** A registration body whose password, " Password1", starts with a space. */
  const SampleRegistration := Body(Str("a@b.c"), Str(" Password1"), Str("A"), Str("B"), Absent, Absent)

  /** The sample's password meets the registration password rule. */
  lemma SamplePasswordPasses()
    ensures StrongPassword(Render(SampleRegistration.password))
  {
    SpacedPasswordIsStrong(" Password1");
  }

  /** The sample's names are not blank and its email is valid. */
  lemma SampleNamesAndEmailPass()
    ensures !AllWhitespace(Render(SampleRegistration.firstName))
    ensures !AllWhitespace(Render(SampleRegistration.lastName))
    ensures IsSampleEmail(Render(SampleRegistration.email))
  {
    assert !IsWhitespace("A"[0]) && !IsWhitespace("B"[0]);
  }

  /** The sample registration passes `validateEmailRegistration`. */
  lemma SampleRegistrationValidates()
    ensures ValidateEmailRegistration(SampleRegistration, IsSampleEmail).Next?
  {
    SamplePasswordPasses();
    SampleNamesAndEmailPass();
    EmailRegistrationAcceptsIff(SampleRegistration, IsSampleEmail);
  }

  /** On an empty table the sample registration succeeds. */
  lemma SampleRegistrationSucceeds()
    ensures ValidateEmailRegistration(SampleRegistration, IsSampleEmail).Next?
    ensures RegisterUserWithEmail(Db(map[], 0, 0), ValidateEmailRegistration(SampleRegistration, IsSampleEmail).body, 0, 0).result.Success?
  {
    SampleRegistrationValidates();
    var data := ValidateEmailRegistration(SampleRegistration, IsSampleEmail).body;
    assert data.email == Str("a@b.c") && data.password == Str(" Password1") && data.deviceId == Absent;
    assert data.firstName.Str? && data.lastName.Str?;
    RegistrationCreatesOneUser(Db(map[], 0, 0), data, 0, 0);
  }

  /**
   * The lockout is reachable: " Password1" registers on an empty table, and
   * a login with the same email and password is then refused with 401.
   */
  lemma SpacedPasswordLocksOut()
    ensures ValidateEmailRegistration(SampleRegistration, IsSampleEmail).Next?
    ensures var s := RegisterUserWithEmail(Db(map[], 0, 0), ValidateEmailRegistration(SampleRegistration, IsSampleEmail).body, 0, 0);
      var login := Body(Str("a@b.c"), Str(" Password1"), Absent, Absent, Absent, Absent);
      && s.result.Success?
      && ValidateLoginAsWritten(login, IsSampleEmail).Next?
      && RunLogin(s.db, LoginDispatch(ValidateLoginAsWritten(login, IsSampleEmail).body), 1) == Step(s.db, Failure(InvalidEmailOrPassword))
  {
    SampleRegistrationSucceeds();
    assert IsWhitespace(" Password1"[0]);
    TrimmedPasswordLocksOut(Db(map[], 0, 0), SampleRegistration, IsSampleEmail, 0, 0, 1);
  }
}
