# Galactica authentication core, in Dafny

Galactica's backend authenticates its users in two ways:

- An **email account** has an email, a bcrypt password hash and names.
- A **device account** is created from nothing but a device id. It gets a
  made-up email `<deviceId>@galacticadevice.com` and has no password.

A device account can later be turned into an email account by registering
an email with the same device id. This is the link path.

Every successful registration, login and refresh issues a pair of JWTs:
- an access token valid for 15 minutes;
- a refresh token valid for 7 days.

The refresh token is also stored in the user's single `refreshToken` slot.
A refresh only accepts the token in that slot, and it replaces that token.

Requests pass through three layers before and after the service:
- the express-validator chains of `AuthMiddleware`;
- the `AuthController` handlers;
- `controllerWrapper`, which turns thrown errors into JSON responses.

The model, one module per file:

| module | file | what it is |
|---|---|---|
| `Wrappers` | wrappers.dfy | `Option` and `Result` |
| `Errors` | errors.dfy | thrown errors: status code (optional) and message; the service's fixed errors |
| `Requests` | requests.dfy | JSON body fields, JavaScript truthiness, express-validator's conversion to text |
| `Text` | text.dfy | JavaScript whitespace, `trim()`, `[a-z]`/`[A-Z]`, `isLength`'s character count |
| `Utf8` | utf8.dfy | the UTF-8 encoding of a string, which is what bcrypt hashes |
| `Hashing` | hashing.dfy | bcrypt: the 72-byte key it takes from a password, then an ideal salted hash of that key |
| `Tokens` | tokens.dfy | JWT sign/verify with explicit time, secrets and serial numbers |
| `Accounts` | accounts.dfy | the user table, its invariant, and each service operation as a transition function (the specification) |
| `AccountProperties` | account_properties.dfy | what the operations promise, proved about the transitions |
| `Service` | service.dfy | `AuthService` as a class with a mutable table whose methods are proved equal to the transitions |
| `Http` | http.dfy | responses |
| `ControllerWrapper` | controller_wrapper.dfy | error to status/body/logging |
| `AuthMiddleware` | auth_middleware.dfy | the four validator arrays |
| `AuthController` | auth_controller.dfy | login dispatch, success statuses, handler methods over the service object |

The database is modelled as a map from id to row. It also has a counter for
the next id and a counter for the next token serial.

The table invariant (`Accounts.Valid`) says:
- every row is keyed by its own id, and that id is below the next id;
- every row has an email;
- non-null emails are unique, and so are non-null device ids;
- every stored refresh token was signed with the refresh secret, is about
  its own row, and was minted earlier.

A create or update that would repeat an email or a device id fails with an
error that carries no status code, and the table is left unchanged. The
wrapper answers that error with 500.

Every `Service.AuthService` method:
- keeps the invariant;
- ends in the state, and returns the outcome, that the `Accounts`
  transition of the same name gives for the state before the call.

So every lemma in `AccountProperties` holds of the methods too.

bcryptjs keys its cipher with exactly 72 bytes. They are the password's
UTF-8 bytes and a NUL byte, repeated and cut at 72. So bcrypt reads only
the first 72 bytes of a long password. `Hashing` models that key exactly;
two different keys are assumed never to collide.

Registering an email a second time is refused only on the normal path.
When the body carries a device id that a row already holds, and the email
is free or is that row's own, the call takes the link path. It then
succeeds and overwrites the row's password with the new one.

Parameters stand in for what the code takes from its environment:
- `now` for the clock;
- `salt` for bcrypt's random salt;
- `isEmail` for validator.js's email test;
- `decode` for reading a JWT string.

## Model

| member | source | states |
|---|---|---|
| Requests.Render | src/middleware/auth.middleware.ts:11-19 | the text a standard validator sees: a string is itself; other values have no upper-case letter |
| Text.TrimStart | src/middleware/auth.middleware.ts:7 | the result is a suffix of the input; everything it drops is whitespace; it does not start with whitespace |
| Text.TrimEnd | src/middleware/auth.middleware.ts:7 | the result is a prefix of the input; everything it drops is whitespace; it does not end with whitespace |
| Text.Trim | src/middleware/auth.middleware.ts:7-9 | the trimmed text is no longer than the input and neither starts nor ends with whitespace |
| Text.TrimKeepsMiddle | src/middleware/auth.middleware.ts:7-9 | the trimmed text is a contiguous slice of the input with only whitespace before and after it |
| Text.TrimEmptyIffBlank | src/middleware/auth.middleware.ts:7-9 | `trim()` then `notEmpty()` fails exactly on whitespace-only text |
| Text.TrimShortensPadded | src/middleware/auth.middleware.ts:56-60 | a password that starts or ends with whitespace changes when trimmed |
| Text.VisibleLength | src/middleware/auth.middleware.ts:14 | `isLength`'s count never exceeds the length; it is 0 exactly for text of presentation selectors only |
| Text.VisibleLengthOfPlainText | src/middleware/auth.middleware.ts:14 | without presentation selectors the count is the length |
| Hashing.Key | src/utils/hash.ts:4-10 | the key is 72 bytes; it starts with the password's UTF-8 bytes (up to 72), followed by a zero byte when the password has fewer than 72 |
| Hashing.HashPassword | src/utils/hash.ts:4-6 | the digest checks against the password it was made from, and records its salt |
| Hashing.CheckPassword | src/utils/hash.ts:8-10 | an accepted input's UTF-8 bytes, up to the 72nd, are the digest's key bytes |
| Hashing.CheckRehashes | src/utils/hash.ts:8-10 | the check accepts exactly the inputs that hash, under the digest's own salt, to the digest |
| Hashing.CheckMatchesOnlyTheHashedPassword | src/utils/hash.ts:8-10 | among passwords of at most 72 UTF-8 bytes without NUL characters, a digest accepts the hashed password and no other |
| Hashing.ShorterInputFails | src/utils/hash.ts:8-10 | an input encoding to fewer bytes than a NUL-free password of at most 72 bytes is rejected |
| Hashing.LongPasswordsCompareByPrefix | src/utils/hash.ts:8-10 | for an input and a password of at least 72 bytes each, the check passes exactly when the first 72 bytes agree |
| Hashing.AppendedTextIgnored | src/utils/hash.ts:8-10 | text appended to a password of at least 72 bytes is ignored, in either direction |
| Hashing.ChangedFirstCharacterFails | src/utils/hash.ts:8-10 | an input whose first character differs from the password's is rejected, whatever the lengths |
| Tokens.SignToken | src/utils/jwt.ts:6-8 | the access token verifies to its subject before 15 minutes have passed, then gives "Token expired"; the refresh verifier always rejects it |
| Tokens.SignRefreshToken | src/utils/jwt.ts:10-16 | the refresh token verifies to its subject for 7 days, then gives "Refresh token expired"; the access verifier always rejects it |
| Tokens.VerifyToken | src/utils/jwt.ts:18-34 | success exactly for the access secret before expiry, with the subject as value; every failure has status 401 |
| Tokens.VerifyRefreshToken | src/utils/jwt.ts:36-52 | success exactly for the refresh secret before expiry; a wrong secret gives "Invalid refresh token", expiry gives "Refresh token expired" |
| Accounts.WithoutRefreshToken | src/services/auth.service.ts:165 | the payload is the row minus its refresh-token slot: putting the slot back gives the row |
| Accounts.FindByEmail | src/services/auth.service.ts:49-51 | returns the one row holding the email, or none exactly when no row holds it |
| Accounts.FindByDeviceId | src/services/auth.service.ts:79-81 | returns the one row holding the device id, or none exactly when no row holds it |
| Accounts.FindById | src/services/auth.service.ts:187-189 | returns the row of that id, or none exactly when there is none |
| Accounts.Write | src/services/auth.service.ts:61-67 | the write fails exactly when another row holds the row's email or device id; on success the map gets the new row and stays unique |
| Accounts.Column | src/services/auth.service.ts:33-40 | a string is stored, `null` clears, an absent field keeps the current value, and any other value is refused |
| Accounts.GenerateTokens | src/services/auth.service.ts:160-177 | always succeeds; only the user's row changes (new refresh token, `lastActiveAt`); both tokens carry the user minus its slot; keeps the invariant |
| Accounts.LinkEmail | src/services/auth.service.ts:19-44 | keeps the invariant; on failure the table is unchanged and the error is a service or library error |
| Accounts.CreateEmailUser | src/services/auth.service.ts:48-71 | keeps the invariant; on failure the table is unchanged and the error is a service or library error |
| Accounts.RegisterUserWithEmail | src/services/auth.service.ts:7-71 | keeps the invariant; on failure the table is unchanged and the error is a service or library error |
| Accounts.RegisterUserWithDevice | src/services/auth.service.ts:73-100 | keeps the invariant; on failure the table is unchanged and the error is a service or library error |
| Accounts.LoginWithDeviceId | src/services/auth.service.ts:102-133 | keeps the invariant; on failure the table is unchanged and the error is a service or library error |
| Accounts.LoginWithEmailAndPassword | src/services/auth.service.ts:135-158 | keeps the invariant; on failure the table is unchanged and the error is a service or library error |
| Accounts.RefreshAccessToken | src/services/auth.service.ts:179-201 | keeps the invariant; on failure the table is unchanged and the error is a service or library error |
| AccountProperties.LinkConflict | src/services/auth.service.ts:14-29 | device id of U plus an email of another user: 409 "Email already in use", table unchanged |
| AccountProperties.LinkSuccess | src/services/auth.service.ts:19-43 | device id of U plus a free email or U's own: U updated in place (same id, no row added, new email, hashed password, given names, type EMAIL, new token stored) |
| AccountProperties.RegistrationOfTakenEmail | src/services/auth.service.ts:49-58 | normal path with a taken email: 409 "User already exists", table unchanged |
| AccountProperties.NormalPath | src/services/auth.service.ts:13-46 | a falsy or unknown device id falls through to normal registration |
| AccountProperties.RegistrationInsertsRow | src/services/auth.service.ts:60-70 | a free email inserts the new EMAIL row under the next id and issues tokens for it |
| AccountProperties.RegistrationCreatesOneUser | src/services/auth.service.ts:45-67 | exactly one row added under a new id; others unchanged; EMAIL type; password is the hash; device id stored as given |
| AccountProperties.RegistrationStoresPassword | src/services/auth.service.ts:32-67 | on either path a successful registration leaves a row with the email and the password's hash |
| AccountProperties.EmptyDeviceIdRegisteredTwice | src/services/auth.service.ts:14 | an empty-string device id never links but is stored, so a second such registration breaks the unique constraint |
| AccountProperties.RegisteringTwiceFails | src/services/auth.service.ts:49-58 | registering the same email twice without a device id: the second call gives 409 |
| AccountProperties.RegisteringTwiceWithNewDeviceRelinks | src/services/auth.service.ts:13-71 | registering the same email twice with a new device id: both calls succeed; the second links to the row the first created, adds no row, and stores the new hash |
| AccountProperties.DeviceRegistrationOfKnownDevice | src/services/auth.service.ts:79-88 | a device id some row holds: 409 "User already exists", table unchanged |
| AccountProperties.DeviceRegistrationCreatesOneUser | src/services/auth.service.ts:90-96 | a new device id adds exactly one DEVICE row with no password and email deviceId + "@galacticadevice.com"; if that email is taken, the unique constraint refuses |
| AccountProperties.DeviceLoginSucceedsIff | src/services/auth.service.ts:106-131 | device login succeeds exactly for a string device id held by a DEVICE row |
| AccountProperties.DeviceLoginUnknown | src/services/auth.service.ts:110-115 | an unknown device id: 401 "Invalid device ID", table unchanged |
| AccountProperties.DeviceLoginOfEmailUser | src/services/auth.service.ts:118-123 | a device id held by an EMAIL row: 403 "Device login not allowed for this user" |
| AccountProperties.DeviceLoginSuccess | src/services/auth.service.ts:126-131 | only the holder's row changes (token, login time); the tokens carry the row as read |
| AccountProperties.EmailLoginRejects | src/services/auth.service.ts:143-148 | no user, no stored password and a wrong password all give the identical 401, table unchanged |
| AccountProperties.EmailLoginSucceedsIff | src/services/auth.service.ts:139-157 | email login succeeds exactly when the password checks and the device id is falsy or held by no other row |
| AccountProperties.EmailLoginSuccess | src/services/auth.service.ts:151-156 | device id becomes the given one if truthy, else unchanged; login time and token stored; the tokens carry the stale row |
| AccountProperties.EmailLoginWithForeignDevice | src/services/auth.service.ts:151-154 | a device id held by another row gets past the password and fails on the unique constraint |
| AccountProperties.EmailLoginWithNonStringPassword | src/services/auth.service.ts:143 | a non-string password reaches bcrypt, which throws |
| AccountProperties.IssuedRefreshTokenIsFresh | src/services/auth.service.ts:167-174 | the new refresh token differs from every stored one; this rests on the token serial (see Left out) |
| AccountProperties.IssuedTokensVerify | src/services/auth.service.ts:165-176 | each issued token verifies with its own verifier only, for its lifetime, to the user minus the slot |
| AccountProperties.RefreshSucceedsIff | src/services/auth.service.ts:185-200 | refresh succeeds exactly for a verifying refresh token equal to the one stored in its subject's row |
| AccountProperties.StoredTokenRefreshes | src/services/auth.service.ts:185-200 | a stored, unexpired token refreshes, and the slot then holds a different token |
| AccountProperties.RefreshRevokesPresentedToken | src/services/auth.service.ts:191-200 | after a successful refresh the same token fails, as invalid or as expired; this rests on the token serial (see Left out) |
| AccountProperties.LinkedAccountLogins | src/services/auth.service.ts:37 | after linking, the device id gives 403 while email and password log in |
| Service.AuthService.constructor | src/services/auth.service.ts:6 | an empty table that satisfies the invariant |
| Service.AuthService.Insert | src/services/auth.service.ts:61-67 | create: adds the row under the next id, or fails on a unique constraint with nothing changed |
| Service.AuthService.Update | src/services/auth.service.ts:151-154 | update: replaces the row, or fails on a unique constraint with nothing changed |
| Service.AuthService.GenerateTokens | src/services/auth.service.ts:160-177 | new state and tokens are those of `Accounts.GenerateTokens` |
| Service.AuthService.RegisterUserWithEmail | src/services/auth.service.ts:7-71 | new state and outcome are those of `Accounts.RegisterUserWithEmail` |
| Service.AuthService.LinkEmail | src/services/auth.service.ts:19-44 | new state and outcome are those of `Accounts.LinkEmail` |
| Service.AuthService.CreateEmailUser | src/services/auth.service.ts:48-71 | new state and outcome are those of `Accounts.CreateEmailUser` |
| Service.AuthService.RegisterUserWithDevice | src/services/auth.service.ts:73-100 | new state and outcome are those of `Accounts.RegisterUserWithDevice` |
| Service.AuthService.LoginWithDeviceId | src/services/auth.service.ts:102-133 | new state and outcome are those of `Accounts.LoginWithDeviceId` |
| Service.AuthService.LoginWithEmailAndPassword | src/services/auth.service.ts:135-158 | new state and outcome are those of `Accounts.LoginWithEmailAndPassword` |
| Service.AuthService.RefreshAccessToken | src/services/auth.service.ts:179-201 | new state and outcome are those of `Accounts.RefreshAccessToken` |
| ControllerWrapper.StatusOf | src/utils/controllerWrapper.ts:21 | a truthy status code is used as it is; a missing or zero one gives 500 |
| ControllerWrapper.Wrap | src/utils/controllerWrapper.ts:14-23 | a completed handler's response passes through unlogged; a thrown error gives `StatusOf` and `{ error: message }`, logged exactly when it has no truthy status |
| ControllerWrapper.ServiceErrorResponses | src/utils/controllerWrapper.ts:18-21 | the service's own errors keep their 401/403/409 and are not logged; library errors give 500 and are logged |
| AuthMiddleware.Finish | src/middleware/auth.middleware.ts:22-28 | any error gives 400 with `{ errors }`; no error passes the body to `next` |
| AuthMiddleware.TrimFieldBlank | src/middleware/auth.middleware.ts:7-9 | a trimmed field is empty exactly when its text is whitespace only |
| AuthMiddleware.SpacedPasswordIsStrong | src/middleware/auth.middleware.ts:13-19 | " Password1" meets the registration password rules and starts with whitespace |
| AuthMiddleware.ValidateEmailRegistration | src/middleware/auth.middleware.ts:5-29 | passes the body with trimmed names, or answers 400 |
| AuthMiddleware.EmailRegistrationAcceptsIff | src/middleware/auth.middleware.ts:5-29 | passes exactly when both names have a non-whitespace character, the email is valid and the password is strong; the password reaches the handler untrimmed |
| AuthMiddleware.PasswordMessages | src/middleware/auth.middleware.ts:13-19 | each of the three password messages appears exactly when its rule fails |
| AuthMiddleware.NameMessages | src/middleware/auth.middleware.ts:7-9 | each name message appears exactly when that name is missing or whitespace only |
| AuthMiddleware.EmailRegistrationMessages | src/middleware/auth.middleware.ts:7-19 | the same for the whole registration error list |
| AuthMiddleware.TrimField | src/middleware/auth.middleware.ts:7-9 | an absent field stays absent; any other field becomes the string `Text.Trim` makes of its text, which is no longer than that text |
| AuthMiddleware.ValidateDeviceRegistration | src/middleware/auth.middleware.ts:31-40 | passes exactly a string device id; otherwise 400 with "Device ID must be a string" |
| AuthMiddleware.HasCredentials | src/middleware/auth.middleware.ts:44-49 | a body that meets the custom rule has a device id, or both an email and a password |
| AuthMiddleware.LoginErrors | src/middleware/auth.middleware.ts:44-65 | no error exactly when: the custom rule holds; without a device id, the email is valid and the password is not whitespace only; and without an email, the device id is a string |
| AuthMiddleware.LoginBodyAsWritten | src/middleware/auth.middleware.ts:56-60 | without a device id the password passed on is the trimmed text; with one the body is untouched |
| AuthMiddleware.ValidateLoginAsWritten | src/middleware/auth.middleware.ts:42-75 | passes the body with the password rewritten as `LoginBodyAsWritten` says; rejects as `ValidateLogin` does |
| AuthMiddleware.ValidateLogin | src/middleware/auth.middleware.ts:42-75 | passes the body as sent, or answers 400 |
| AuthMiddleware.LoginCredentialsMessage | src/middleware/auth.middleware.ts:44-49 | "Either email/password or deviceId must be provided" exactly when (email falsy or password falsy) and device id falsy |
| AuthMiddleware.LoginEmailCheckedWithoutDevice | src/middleware/auth.middleware.ts:51-54 | the login email message appears exactly when there is no device id and the email is invalid |
| AuthMiddleware.LoginPasswordMessage | src/middleware/auth.middleware.ts:56-60 | "Password is required" exactly when there is no device id and the password is blank |
| AuthMiddleware.LoginDeviceIdMessage | src/middleware/auth.middleware.ts:62-65 | "Device ID must be a string" exactly when there is no email and the device id is not a string |
| AuthMiddleware.LoginWithAllThreePasses | src/middleware/auth.middleware.ts:42-75 | a truthy email, a truthy password and any device id pass, whatever the email looks like |
| AuthMiddleware.LoginWithDeviceOnlyPasses | src/middleware/auth.middleware.ts:42-75 | a non-empty string device id alone passes |
| AuthMiddleware.LoginWithEmailPasses | src/middleware/auth.middleware.ts:42-75 | a valid non-empty email with a non-blank password and no device id passes |
| AuthMiddleware.LoginWithEmailPassesAsWritten | src/middleware/auth.middleware.ts:56-60 | the same body passes `validateLogin` as written with its password trimmed |
| AuthMiddleware.ValidateRefreshToken | src/middleware/auth.middleware.ts:77-89 | passes exactly when the token's text is non-empty; otherwise 400 with "Refresh token is required" |
| AuthMiddleware.RefreshTokenRule | src/middleware/auth.middleware.ts:79 | a missing, null or empty token is refused; numbers and booleans pass |
| AuthController.Reply | src/controllers/auth.controller.ts:6-42 | success replies 201 (registrations) or 200 (login, refresh) with the tokens, unlogged; a failure is the wrapper's answer to the error |
| AuthController.LoginDispatch | src/controllers/auth.controller.ts:26-31 | truthy device id and email: email login with the device id; truthy device id alone: device login; otherwise email login without a device id |
| AuthController.RunLogin | src/controllers/auth.controller.ts:25-32 | the one service call keeps the invariant and changes nothing on failure |
| AuthController.LoginDispatchIgnoresFalsyDeviceId | src/controllers/auth.controller.ts:26-31 | a falsy device id (empty string included) is the same as none; device login exactly when the device id is truthy and the email is not; email and password are forwarded unchanged |
| AuthController.Presented | src/controllers/auth.controller.ts:38-40 | the body's `refreshToken` goes to the service unchanged; a non-string is no token |
| AuthController.HandleRegisterWithEmail | src/controllers/auth.controller.ts:6-12 | one `registerUserWithEmail` call; the reply is `Reply` of its outcome |
| AuthController.HandleRegisterWithDevice | src/controllers/auth.controller.ts:14-20 | one `registerUserWithDevice` call; the reply is `Reply` of its outcome |
| AuthController.HandleLogin | src/controllers/auth.controller.ts:22-35 | exactly the service call `LoginDispatch` picks; the reply is `Reply` of its outcome |
| AuthController.HandleRefreshToken | src/controllers/auth.controller.ts:37-42 | one `refreshAccessToken` call with the body's token; the reply is `Reply` of its outcome |
| AuthController.RegisteredUserCanLogIn | src/middleware/auth.middleware.ts:56-60 | after a validated registration, the same email and password, with no device id, pass `validateLogin` and log in |
| AuthController.RegisteredLoginIsTrimmed | src/middleware/auth.middleware.ts:56-60 | a validated registration's email and password, with no device id, pass `validateLogin` as written, with the password trimmed to non-empty text |
| AuthController.TrimmedPasswordFails | src/middleware/auth.middleware.ts:56-60 | when a password starts with whitespace, or is NUL-free, at most 72 bytes and ends with whitespace, its trimmed form fails against its digest |
| AuthController.LongTrimmedPasswordChecks | src/middleware/auth.middleware.ts:56-60 | when a password is padded only at the end and at least 72 bytes remain after trimming, the trimmed form still checks |
| AuthController.TrimmedPasswordRefused | src/services/auth.service.ts:143-148 | a row holding a padded password's digest refuses the trimmed password with 401 and no change |
| AuthController.TrimmedPasswordLocksOut | src/middleware/auth.middleware.ts:56-60 | as written, a registered password that starts with whitespace, or is NUL-free, at most 72 bytes and ends with whitespace, is trimmed at login and refused with 401 |
| AuthController.SpacedPasswordLocksOut | src/middleware/auth.middleware.ts:56-60 | the lockout happens: on an empty table " Password1" passes registration validation and registers, and the same email and password then pass login validation and are refused with 401 |

## Left out

- Logging (`logger`, New Relic) is left out; the model only records whether the wrapper would log.
- Concurrency is left out. Each operation is one atomic step, and concurrent registrations are decided by the unique constraints.
- Prisma and its database configuration are not part of this model. The table is a map with the two unique constraints. The messages of Prisma's and bcrypt's own errors are stand-ins. Only the absence of a status code matters to the response, and it gives 500.
- A failed insert does not use up an id here, while a database sequence may skip one. Tokens carry the row's id, so after a failed insert the next user's id, as clients see it, can differ from the source's.
- Http.ValidationError: keeps only `path` and `msg` of an express-validator error. The `type`, `value` and `location` fields of the 400 body are left out.
- The schema's column defaults are not part of this model. A new row starts with no `lastActiveAt`, and a successful call sets it at once.
- The body's spread (`...data`) is only partly modelled. Email registration reads `email`, `password`, `firstName`, `lastName` and `deviceId`. Device registration reads only `deviceId`. Other body fields (such as a `refreshToken` or `lastActiveAt` sent by the client) are not written into the row.
- JSON values in body fields are strings, numbers (integers only), booleans, `null`, or absent. Objects, arrays and fractional numbers are left out.
- Requests.Render: a number renders as its exact decimal digits, which is JavaScript's `String(n)` only for integers below 2^53 in magnitude. `JSON.parse` rounds larger integer literals to the nearest double. `String(n)` writes magnitudes of 10^21 and more in exponent form ("1e+21"). Both are left out, so for such numbers the validators and `trim()` see different text here than in the source.
- Timestamps: `now` is an integer clock in seconds and `lastActiveAt` stores it; no calendar `Date` values.
- Tokens.SignRefreshToken: a serial number idealises freshness. The source makes a new token differ from the old one only through its `iat` claim in seconds and the row's fields (`lastActiveAt` changes on every token issue, src/services/auth.service.ts:165-174). Two issues within the same second for an unchanged row would give equal strings there, which the model does not capture. `AccountProperties.IssuedRefreshTokenIsFresh` and `AccountProperties.RefreshRevokesPresentedToken` rest on the serial.
- Accounts.RefreshAccessToken: compares the presented token with the stored one as decoded token values; the source compares the strings (src/services/auth.service.ts:191). The two agree when `decode` is one-to-one. The model does not require that, so a different string that decodes to the stored token is accepted here, where the source would refuse it.
- JWT encoding is left out: a token is a value that records its secret, serial, subject and times. `decode` stands for parsing a string, and a non-token string is `None`. The verifiers' re-throw of errors that are not JWT errors (src/utils/jwt.ts:30-31) is left out, because verifying a decoded value cannot fail any other way.
- Hashing.HashPassword: bcrypt's cost factor and its Blowfish rounds are left out. The 72-byte key is modelled exactly; the hash of a key is modelled as injective, so keys that differ never collide. The salt is a parameter for its randomness.
- Utf8.Encode: JavaScript strings may hold lone surrogates, which a Dafny `char` cannot. bcryptjs's treatment of them is left out.
- `isEmail` (validator.js) is a parameter, not a definition.
- `isLength` counts Unicode scalar values, not UTF-16 code units as validator.js does. The surrogate-pair correction in validator.js makes the two counts agree.
- If `trim()` ever runs on an absent field, the model leaves the field absent. In the arrays modelled here, a missing field that a trim would touch always makes the array answer 400, so this choice cannot be observed.
- AuthMiddleware.ValidateLogin: passes the password on as typed, which is the corrected behaviour (see Findings); the code as written is `AuthMiddleware.ValidateLoginAsWritten`.
- The route table (src/routes/auth.routes.ts) is left out. The lemmas that chain a validator with a handler (`AuthController.RegisteredUserCanLogIn`, `AuthController.TrimmedPasswordLocksOut`) compose those two steps directly.
- src/models/user.ts (raw SQL queries the service does not use) is not part of this model.

## Findings

| source | as written | input that shows it | evidently intended | confidence | as-written member | corrected member |
|---|---|---|---|---|---|---|
| src/middleware/auth.middleware.ts:56-60 | when a login has no device id, the `trim()` sanitizer writes the trimmed password back into the body. Registration (lines 13-19) hashes the password untrimmed. So the password never checks at login when it starts with whitespace, or when it ends with whitespace and has at most 72 UTF-8 bytes and no NUL character. Past 72 bytes bcrypt may not read the trimmed end (`AuthController.LongTrimmedPasswordChecks`). | register with password " Password1", which the registration rules accept; then log in with the same email and password and no device id: the service checks "Password1" and answers 401 "Invalid email or password" (`AuthController.SpacedPasswordLocksOut`) | the trim only decides whether the password is blank, and the password reaches the service as typed, so a registered user can log in with the password they chose | medium, not executed | AuthController.TrimmedPasswordLocksOut | AuthController.RegisteredUserCanLogIn |
