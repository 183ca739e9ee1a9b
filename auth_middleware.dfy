/**
 * `AuthMiddleware`: the four express-validator arrays that run before the
 * handlers. Each array runs its chains in order, collecting one error per
 * failed check, and ends with a checker that answers 400 with the list of
 * errors, or passes the (possibly sanitized) body on to the handler.
 *
 * Standard validators see a field through `Render` (the text
 * express-validator converts a value to); `isString` sees the value
 * itself. The `trim()` sanitizer writes the trimmed text back into the
 * body. `isEmail` is validator.js's email test, which is not modelled: it
 * is a parameter.
 */
module AuthMiddleware {
  import opened Requests
  import opened Text
  import opened Http

  const FirstNameRequired := "First name is required"
  const LastNameRequired := "Last name is required"
  const ValidEmailRequired := "Valid email is required"
  const PasswordTooShort := "Password must be at least 8 characters long."
  const PasswordNeedsLower := "Password must include at least one lowercase letter."
  const PasswordNeedsUpper := "Password must include at least one uppercase letter."
  const DeviceIdMustBeString := "Device ID must be a string"
  const CredentialsRequired := "Either email/password or deviceId must be provided"
  const ValidLoginEmailRequired := "Valid email is required when logging in with email/password"
  const PasswordRequired := "Password is required"
  const RefreshTokenRequired := "Refresh token is required"

  /** What the final checker of an array does: call `next` with the body, or answer 400. */
  datatype Verdict = Next(body: Body) | Reject(response: Response)

  /** The error a check adds when it fails. */
  function Check(ok: bool, path: string, msg: string): (errors: seq<ValidationError>)
    ensures ok <==> errors == []
    ensures !ok ==> errors == [ValidationError(path, msg)]
  {
    if ok then [] else [ValidationError(path, msg)]
  }

  /** The final checker: any collected error gives 400 with `{ errors }`; none calls `next`. */
  function Finish(body: Body, errors: seq<ValidationError>): (v: Verdict)
    ensures v.Next? <==> errors == []
    ensures v.Next? ==> v.body == body
    ensures v.Reject? ==> v.response == Response(400, ValidationErrors(errors))
  {
    if errors == [] then Next(body) else Reject(Response(400, ValidationErrors(errors)))
  }

  /** The `trim()` sanitizer on a field: a present value becomes its trimmed text. */
  function TrimField(f: Field): (g: Field)
    ensures f.Absent? ==> g == Absent
    ensures !f.Absent? ==> g.Str? && |g.s| <= |Render(f)|
    ensures !f.Absent? ==> g.s == Trim(Render(f))
  {
    if f.Absent? then Absent else Str(Trim(Render(f)))
  }

  /** The trimmed field is empty exactly when the field's text is whitespace only. */
  lemma TrimFieldBlank(f: Field)
    ensures Render(TrimField(f)) == "" <==> AllWhitespace(Render(f))
  {
    TrimEmptyIffBlank(Render(f));
  }

  /** The password rule of registration: at least 8 characters, one of `[a-z]`, one of `[A-Z]`. */
  predicate StrongPassword(p: string) {
    VisibleLength(p) >= 8 && HasLower(p) && HasUpper(p)
  }

  /** " Password1", which starts with a space, meets the registration password rule. */
  lemma SpacedPasswordIsStrong(p: string)
    requires p == " Password1"
    ensures StrongPassword(p) && IsWhitespace(p[0])
  {
    assert p[0] == ' ' && p[1] == 'P' && p[2] == 'a';
    assert forall i :: 0 <= i < |p| ==> !IsPresentationSelector(p[i]);
    VisibleLengthOfPlainText(p);
  }

  // ------------------------------------------------- validateEmailRegistration

  /** The errors of the name and email chains. */
  function IdentityErrors(b: Body, isEmail: string -> bool): (errors: seq<ValidationError>)
    ensures forall e :: e in errors ==> e.path != "password"
  {
    Check(Render(TrimField(b.firstName)) != "", "firstName", FirstNameRequired)
    + Check(Render(TrimField(b.lastName)) != "", "lastName", LastNameRequired)
    + Check(isEmail(Render(b.email)), "email", ValidEmailRequired)
  }

  /** The errors of the password chain, one per failed rule. */
  function PasswordErrors(password: string): (errors: seq<ValidationError>)
    ensures forall e :: e in errors ==> e.path == "password"
  {
    Check(VisibleLength(password) >= 8, "password", PasswordTooShort)
    + Check(HasLower(password), "password", PasswordNeedsLower)
    + Check(HasUpper(password), "password", PasswordNeedsUpper)
  }

  function EmailRegistrationErrors(b: Body, isEmail: string -> bool): seq<ValidationError> {
    IdentityErrors(b, isEmail) + PasswordErrors(Render(b.password))
  }

  /** `validateEmailRegistration`: names trimmed and required, a valid email, a strong password. */
  function ValidateEmailRegistration(b: Body, isEmail: string -> bool): (v: Verdict)
    ensures v.Next? ==> v.body == b.(firstName := TrimField(b.firstName), lastName := TrimField(b.lastName))
    ensures v.Reject? ==> v.response.status == 400
  {
    Finish(b.(firstName := TrimField(b.firstName), lastName := TrimField(b.lastName)), EmailRegistrationErrors(b, isEmail))
  }

  /**
   * A registration body passes exactly when both names have a character
   * other than whitespace, the email is valid and the password is strong;
   * the password itself reaches the handler untrimmed.
   */
  lemma EmailRegistrationAcceptsIff(b: Body, isEmail: string -> bool)
    ensures ValidateEmailRegistration(b, isEmail).Next? <==>
      && !AllWhitespace(Render(b.firstName))
      && !AllWhitespace(Render(b.lastName))
      && isEmail(Render(b.email))
      && StrongPassword(Render(b.password))
    ensures ValidateEmailRegistration(b, isEmail).Next? ==> ValidateEmailRegistration(b, isEmail).body.password == b.password
  {
    TrimFieldBlank(b.firstName);
    TrimFieldBlank(b.lastName);
  }

  /** Each password message is reported exactly when its own rule fails. */
  lemma PasswordMessages(password: string)
    ensures ValidationError("password", PasswordTooShort) in PasswordErrors(password) <==> VisibleLength(password) < 8
    ensures ValidationError("password", PasswordNeedsLower) in PasswordErrors(password) <==> !HasLower(password)
    ensures ValidationError("password", PasswordNeedsUpper) in PasswordErrors(password) <==> !HasUpper(password)
  {
    assert PasswordTooShort != PasswordNeedsLower && PasswordTooShort != PasswordNeedsUpper;
    assert PasswordNeedsLower[35] != PasswordNeedsUpper[35];
  }

  /** A name message is reported exactly when that name is missing or whitespace only. */
  lemma NameMessages(b: Body, isEmail: string -> bool)
    ensures ValidationError("firstName", FirstNameRequired) in IdentityErrors(b, isEmail) <==> AllWhitespace(Render(b.firstName))
    ensures ValidationError("lastName", LastNameRequired) in IdentityErrors(b, isEmail) <==> AllWhitespace(Render(b.lastName))
  {
    var first := Check(Render(TrimField(b.firstName)) != "", "firstName", FirstNameRequired);
    var last := Check(Render(TrimField(b.lastName)) != "", "lastName", LastNameRequired);
    var email := Check(isEmail(Render(b.email)), "email", ValidEmailRequired);
    assert IdentityErrors(b, isEmail) == first + last + email;
    TrimFieldBlank(b.firstName);
    TrimFieldBlank(b.lastName);
    assert ValidationError("firstName", FirstNameRequired) in first <==> AllWhitespace(Render(b.firstName));
    assert ValidationError("lastName", LastNameRequired) in last <==> AllWhitespace(Render(b.lastName));
    assert "firstName" != "lastName" && "firstName" != "email" && "lastName" != "email";
  }

  /**
   * In the registration error list, each password message appears exactly
   * when its rule fails and each name message exactly when the name is
   * missing or whitespace only.
   */
  lemma EmailRegistrationMessages(b: Body, isEmail: string -> bool)
    ensures var errors := EmailRegistrationErrors(b, isEmail);
      var password := Render(b.password);
      && (ValidationError("password", PasswordTooShort) in errors <==> VisibleLength(password) < 8)
      && (ValidationError("password", PasswordNeedsLower) in errors <==> !HasLower(password))
      && (ValidationError("password", PasswordNeedsUpper) in errors <==> !HasUpper(password))
      && (ValidationError("firstName", FirstNameRequired) in errors <==> AllWhitespace(Render(b.firstName)))
      && (ValidationError("lastName", LastNameRequired) in errors <==> AllWhitespace(Render(b.lastName)))
  {
    PasswordMessages(Render(b.password));
    NameMessages(b, isEmail);
  }

  // ------------------------------------------------ validateDeviceRegistration

  /** `validateDeviceRegistration`: the device id must be a string. */
  function ValidateDeviceRegistration(b: Body): (v: Verdict)
    ensures v.Next? <==> b.deviceId.Str?
    ensures v.Next? ==> v.body == b
    ensures v.Reject? ==> v.response == Response(400, ValidationErrors([ValidationError("deviceId", DeviceIdMustBeString)]))
  {
    Finish(b, Check(b.deviceId.Str?, "deviceId", DeviceIdMustBeString))
  }

  // ------------------------------------------------------------ validateLogin

  /** The custom rule: email and password both truthy, or a truthy device id. */
  predicate HasCredentials(b: Body): (ok: bool)
    ensures ok ==> Exists(b.deviceId) || (Exists(b.email) && Exists(b.password))
  {
    (Truthy(b.email) && Truthy(b.password)) || Truthy(b.deviceId)
  }

  /**
   * The errors the login chains report. There are none exactly when the
   * custom rule holds, a body without a device id has a valid email and a
   * password that is not whitespace only, and a body without an email has
   * a string device id.
   */
  function LoginErrors(b: Body, isEmail: string -> bool): (errs: seq<ValidationError>)
    ensures errs == [] <==>
      && HasCredentials(b)
      && (!Exists(b.deviceId) ==> isEmail(Render(b.email)) && !AllWhitespace(Render(b.password)))
      && (!Exists(b.email) ==> b.deviceId.Str?)
  {
    TrimFieldBlank(b.password);
    Check(HasCredentials(b), "", CredentialsRequired)
    + (if !Exists(b.deviceId) then Check(isEmail(Render(b.email)), "email", ValidLoginEmailRequired) else [])
    + (if !Exists(b.deviceId) then Check(Render(TrimField(b.password)) != "", "password", PasswordRequired) else [])
    + (if !Exists(b.email) then Check(b.deviceId.Str?, "deviceId", DeviceIdMustBeString) else [])
  }

  /**
   * The body `validateLogin` passes on, as written: when there is no
   * device id the password chain runs, and its `trim()` replaces the
   * password with its trimmed text.
   */
  function LoginBodyAsWritten(b: Body): (r: Body)
    ensures Exists(b.deviceId) ==> r == b
    ensures !Exists(b.deviceId) ==> r == b.(password := TrimField(b.password))
  {
    if !Exists(b.deviceId) then b.(password := TrimField(b.password)) else b
  }

  /**
   * `validateLogin`, with the password checked in trimmed form but passed
   * on as typed (see `LoginBodyAsWritten` for the rewrite the code does).
   */
  function ValidateLogin(b: Body, isEmail: string -> bool): (v: Verdict)
    ensures v.Next? ==> v.body == b
    ensures v.Reject? ==> v.response.status == 400
  {
    Finish(b, LoginErrors(b, isEmail))
  }

  /** `validateLogin` as written, with the trimmed password passed on. */
  function ValidateLoginAsWritten(b: Body, isEmail: string -> bool): (v: Verdict)
    ensures v.Next? ==> v.body == LoginBodyAsWritten(b)
    ensures v.Reject? ==> v == ValidateLogin(b, isEmail)
  {
    Finish(LoginBodyAsWritten(b), LoginErrors(b, isEmail))
  }

  /**
   * The custom rule's message is reported exactly when email or password
   * is falsy and the device id is falsy.
   */
  lemma LoginCredentialsMessage(b: Body, isEmail: string -> bool)
    ensures ValidationError("", CredentialsRequired) in LoginErrors(b, isEmail) <==>
      (!Truthy(b.email) || !Truthy(b.password)) && !Truthy(b.deviceId)
  {
    var tail := (if !Exists(b.deviceId) then Check(isEmail(Render(b.email)), "email", ValidLoginEmailRequired) else [])
      + (if !Exists(b.deviceId) then Check(Render(TrimField(b.password)) != "", "password", PasswordRequired) else [])
      + (if !Exists(b.email) then Check(b.deviceId.Str?, "deviceId", DeviceIdMustBeString) else []);
    assert forall e :: e in tail ==> e.path != "";
  }

  /**
   * The email format is checked only when there is no device id; with a
   * device id nothing about the email is reported.
   */
  lemma LoginEmailCheckedWithoutDevice(b: Body, isEmail: string -> bool)
    ensures ValidationError("email", ValidLoginEmailRequired) in LoginErrors(b, isEmail) <==>
      !Exists(b.deviceId) && !isEmail(Render(b.email))
  {
  }

  /**
   * A missing or whitespace-only password is reported only when there is
   * no device id.
   */
  lemma LoginPasswordMessage(b: Body, isEmail: string -> bool)
    ensures ValidationError("password", PasswordRequired) in LoginErrors(b, isEmail) <==>
      !Exists(b.deviceId) && AllWhitespace(Render(b.password))
  {
    TrimFieldBlank(b.password);
  }

  /** The device id must be a string only when there is no email. */
  lemma LoginDeviceIdMessage(b: Body, isEmail: string -> bool)
    ensures ValidationError("deviceId", DeviceIdMustBeString) in LoginErrors(b, isEmail) <==>
      !Exists(b.email) && !b.deviceId.Str?
  {
  }

  /**
   * A body with a truthy email, a truthy password and any device id passes,
   * whatever the email looks like: only the custom rule applies to it.
   */
  lemma LoginWithAllThreePasses(b: Body, isEmail: string -> bool)
    requires Truthy(b.email) && Truthy(b.password) && Exists(b.deviceId)
    ensures ValidateLogin(b, isEmail) == Next(b)
  {
  }

  /** A body with only a string device id passes. */
  lemma LoginWithDeviceOnlyPasses(b: Body, isEmail: string -> bool)
    requires b.email.Absent? && b.deviceId.Str? && b.deviceId.s != ""
    ensures ValidateLogin(b, isEmail) == Next(b)
  {
  }

  /** A body with a non-empty valid email, a password with a visible character and no device id passes. */
  lemma LoginWithEmailPasses(b: Body, isEmail: string -> bool)
    requires b.email.Str? && b.email.s != "" && isEmail(b.email.s)
    requires b.password.Str? && !AllWhitespace(b.password.s) && b.deviceId.Absent?
    ensures ValidateLogin(b, isEmail) == Next(b)
  {
    TrimFieldBlank(b.password);
    assert b.password.s != "";
  }

  /** The same body, through `validateLogin` as written, passes with its password trimmed. */
  lemma LoginWithEmailPassesAsWritten(b: Body, isEmail: string -> bool)
    requires b.email.Str? && b.email.s != "" && isEmail(b.email.s)
    requires b.password.Str? && !AllWhitespace(b.password.s) && b.deviceId.Absent?
    ensures ValidateLoginAsWritten(b, isEmail) == Next(b.(password := Str(Trim(b.password.s))))
  {
    LoginWithEmailPasses(b, isEmail);
    assert LoginErrors(b, isEmail) == [];
  }

  // ----------------------------------------------------- validateRefreshToken

  /** `validateRefreshToken`: the refresh token's text must not be empty. */
  function ValidateRefreshToken(b: Body): (v: Verdict)
    ensures v.Next? <==> Render(b.refreshToken) != ""
    ensures v.Next? ==> v.body == b
    ensures v.Reject? ==> v.response == Response(400, ValidationErrors([ValidationError("refreshToken", RefreshTokenRequired)]))
  {
    Finish(b, Check(Render(b.refreshToken) != "", "refreshToken", RefreshTokenRequired))
  }

  /** A missing, `null` or empty refresh token is refused; any other value passes, strings and numbers alike. */
  lemma RefreshTokenRule(b: Body)
    ensures b.refreshToken.Absent? || b.refreshToken.Null? || b.refreshToken == Str("") ==> ValidateRefreshToken(b).Reject?
    ensures b.refreshToken.Num? || b.refreshToken.Bool? ==> ValidateRefreshToken(b).Next?
  {
  }
}
