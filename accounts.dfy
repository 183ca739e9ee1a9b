/**
 * The user table and what each `AuthService` operation does to it, as
 * functions from the table before the call to the table after it and the
 * call's outcome. The `Service` module's class performs the same steps by
 * updating its fields in place and is proved to agree with these functions.
 *
 * The database enforces two unique constraints, on non-null `email` and on
 * non-null `deviceId`: a create or update that would break one fails with
 * an error that has no status code, and changes nothing.
 */
module Accounts {
  import opened Wrappers
  import opened Errors
  import opened Requests
  import opened Hashing
  import opened Tokens

  datatype UserType = Email | Device

  /** A user record without its refresh-token slot: what the tokens carry. */
  datatype Payload = Payload(
    id: nat,
    email: Option<string>,
    deviceId: Option<string>,
    password: Option<Digest>,
    firstName: Option<string>,
    lastName: Option<string>,
    userType: UserType,
    lastActiveAt: Option<int>)

  /** One row of the user table. `lastActiveAt` holds the clock value of the last touch. */
  datatype User = User(
    id: nat,
    email: Option<string>,
    deviceId: Option<string>,
    password: Option<Digest>,
    firstName: Option<string>,
    lastName: Option<string>,
    userType: UserType,
    refreshToken: Option<Token<Payload>>,
    lastActiveAt: Option<int>)

  datatype TokenPair = TokenPair(accessToken: Token<Payload>, refreshToken: Token<Payload>)

  /** The table, the next id the database assigns, and the next token serial. */
  datatype Db = Db(users: map<nat, User>, nextId: nat, nextSerial: nat)

  /** The table after a call, and what the call returned or threw. */
  datatype Step = Step(db: Db, result: Result<TokenPair, Error>)

  /** The domain the device-registration flow puts after a device id to make an email. */
  const DeviceEmailDomain := "@galacticadevice.com"

  function WithRefreshToken(p: Payload, refreshToken: Option<Token<Payload>>): User {
    User(p.id, p.email, p.deviceId, p.password, p.firstName, p.lastName, p.userType, refreshToken, p.lastActiveAt)
  }

  /** `generateTokens`' `{ refreshToken: _, ...userWithoutRefreshToken }`: every field but the slot. */
  function WithoutRefreshToken(u: User): (p: Payload)
    ensures WithRefreshToken(p, u.refreshToken) == u
  {
    Payload(u.id, u.email, u.deviceId, u.password, u.firstName, u.lastName, u.userType, u.lastActiveAt)
  }

  // ---------------------------------------------------------------- the table

  ghost predicate UniqueEmails(users: map<nat, User>) {
    forall i, j :: i in users && j in users && users[i].email.Some? && users[i].email == users[j].email ==> i == j
  }

  ghost predicate UniqueDeviceIds(users: map<nat, User>) {
    forall i, j :: i in users && j in users && users[i].deviceId.Some? && users[i].deviceId == users[j].deviceId ==> i == j
  }

  ghost predicate Keyed(users: map<nat, User>) {
    forall id :: id in users ==> users[id].id == id
  }

  /** A stored refresh token was signed with the refresh secret, for its own row, and minted before `nextSerial`. */
  ghost predicate StoredTokenOk(u: User, nextSerial: nat) {
    u.refreshToken.Some? ==>
      && u.refreshToken.value.key == RefreshSecret
      && u.refreshToken.value.subject.id == u.id
      && u.refreshToken.value.serial < nextSerial
  }

  /**
   * The table's invariant: rows are keyed by their id, ids below `nextId`,
   * every row has an email, emails and device ids are unique, and every
   * stored refresh token is a refresh token about its row minted earlier.
   */
  ghost predicate Valid(db: Db) {
    && Keyed(db.users)
    && UniqueEmails(db.users)
    && UniqueDeviceIds(db.users)
    && forall id :: id in db.users ==>
         && id < db.nextId
         && db.users[id].email.Some?
         && StoredTokenOk(db.users[id], db.nextSerial)
  }

  /** `findUnique({ where: { email } })`. */
  function FindByEmail(users: map<nat, User>, email: string): (r: Option<User>)
    requires Keyed(users) && UniqueEmails(users)
    ensures r.Some? ==> r.value.id in users && users[r.value.id] == r.value && r.value.email == Some(email)
    ensures forall id :: id in users && users[id].email == Some(email) ==> r == Some(users[id])
    ensures r.None? <==> forall id :: id in users ==> users[id].email != Some(email)
  {
    if exists id :: id in users && users[id].email == Some(email) then
      var id :| id in users && users[id].email == Some(email);
      Some(users[id])
    else
      None
  }

  /** `findUnique({ where: { deviceId } })`. */
  function FindByDeviceId(users: map<nat, User>, deviceId: string): (r: Option<User>)
    requires Keyed(users) && UniqueDeviceIds(users)
    ensures r.Some? ==> r.value.id in users && users[r.value.id] == r.value && r.value.deviceId == Some(deviceId)
    ensures forall id :: id in users && users[id].deviceId == Some(deviceId) ==> r == Some(users[id])
    ensures r.None? <==> forall id :: id in users ==> users[id].deviceId != Some(deviceId)
  {
    if exists id :: id in users && users[id].deviceId == Some(deviceId) then
      var id :| id in users && users[id].deviceId == Some(deviceId);
      Some(users[id])
    else
      None
  }

  /** `findUnique({ where: { id } })`. */
  function FindById(users: map<nat, User>, id: nat): (r: Option<User>)
    ensures r.Some? <==> id in users
    ensures r.Some? ==> r.value == users[id]
  {
    if id in users then Some(users[id]) else None
  }

  /** Another row already holds `row`'s non-null email or device id. */
  predicate Clashes(users: map<nat, User>, row: User) {
    exists id :: id in users && id != row.id &&
      ((row.email.Some? && users[id].email == row.email) || (row.deviceId.Some? && users[id].deviceId == row.deviceId))
  }

  /**
   * `prisma.user.create` / `prisma.user.update` of a whole row: the unique
   * constraints reject the write exactly when it would give two rows the
   * same email or device id, so a successful write keeps both unique.
   */
  function Write(users: map<nat, User>, row: User): (r: Result<map<nat, User>, Error>)
    ensures r.Failure? <==> Clashes(users, row)
    ensures r.Failure? ==> r.error == UniqueConstraintFailed
    ensures r.Success? ==> r.value == users[row.id := row]
    ensures r.Success? && UniqueEmails(users) ==> UniqueEmails(r.value)
    ensures r.Success? && UniqueDeviceIds(users) ==> UniqueDeviceIds(r.value)
  {
    if Clashes(users, row) then Failure(UniqueConstraintFailed) else Success(users[row.id := row])
  }

  /**
   * What a body field writes into a nullable text column: a string is
   * stored, `null` clears the column, an absent field leaves `current`,
   * and the database client refuses any other JSON value.
   */
  function Column(f: Field, current: Option<string>): (r: Result<Option<string>, Error>)
    ensures r.Success? <==> f.Str? || f.Null? || f.Absent?
    ensures f.Str? ==> r == Success(Some(f.s))
    ensures f.Null? ==> r == Success(None)
    ensures f.Absent? ==> r == Success(current)
  {
    match f
    case Str(s) => Success(Some(s))
    case Null => Success(None)
    case Absent => Success(current)
    case _ => Failure(InvalidQueryArgument)
  }

  function Refuse(db: Db, e: Error): Step {
    Step(db, Failure(e))
  }

  // ---------------------------------------------------------------- operations

  /**
   * `generateTokens(user)`: sign both tokens over `user` without its
   * refresh-token slot, then store the refresh token and touch
   * `lastActiveAt` in the row with `user`'s id. The tokens carry `user`
   * as passed in, which may be older than the stored row.
   */
  function GenerateTokens(db: Db, user: User, now: int): (s: Step)
    requires Valid(db) && user.id in db.users
    ensures Valid(s.db)
    ensures s.result.Success?
    ensures s.db.users.Keys == db.users.Keys && s.db.nextId == db.nextId
    ensures s.db.users == db.users[user.id := db.users[user.id].(refreshToken := Some(s.result.value.refreshToken), lastActiveAt := Some(now))]
    ensures s.db.nextSerial == db.nextSerial + 1
    ensures s.result.value.accessToken.subject == WithoutRefreshToken(user)
    ensures s.result.value.refreshToken.subject == WithoutRefreshToken(user)
  {
    var subject := WithoutRefreshToken(user);
    var tokens := TokenPair(SignToken(subject, db.nextSerial, now), SignRefreshToken(subject, db.nextSerial, now));
    var row := db.users[user.id].(refreshToken := Some(tokens.refreshToken), lastActiveAt := Some(now));
    Step(Db(db.users[user.id := row], db.nextId, db.nextSerial + 1), Success(tokens))
  }

  /** The link flow: the email registration lands on the row that already holds the device id. */
  function LinkEmail(db: Db, deviceUser: User, data: Body, salt: nat, now: int): (s: Step)
    requires Valid(db) && deviceUser.id in db.users && db.users[deviceUser.id] == deviceUser
    ensures Valid(s.db)
    ensures s.result.Failure? ==> s.db == db
    ensures s.result.Failure? ==> IsDomainError(s.result.error) || IsLibraryError(s.result.error)
  {
    if !data.email.Str? then Refuse(db, InvalidQueryArgument)
    else
      var emailTaken := FindByEmail(db.users, data.email.s);
      if emailTaken.Some? && emailTaken.value.id != deviceUser.id then Refuse(db, EmailAlreadyInUse)
      else if !data.password.Str? then Refuse(db, IllegalHashArguments)
      else
        var hashed := HashPassword(data.password.s, salt);
        var firstName := Column(data.firstName, deviceUser.firstName);
        var lastName := Column(data.lastName, deviceUser.lastName);
        if firstName.Failure? || lastName.Failure? then Refuse(db, InvalidQueryArgument)
        else
          var updated := deviceUser.(email := Some(data.email.s), password := Some(hashed),
                                     firstName := firstName.value, lastName := lastName.value, userType := Email);
          match Write(db.users, updated)
          case Failure(e) => Refuse(db, e)
          case Success(users) => GenerateTokens(db.(users := users), updated, now)
  }

  /** The normal email registration: create a fresh `EMAIL` row. */
  function CreateEmailUser(db: Db, data: Body, salt: nat, now: int): (s: Step)
    requires Valid(db)
    ensures Valid(s.db)
    ensures s.result.Failure? ==> s.db == db
    ensures s.result.Failure? ==> IsDomainError(s.result.error) || IsLibraryError(s.result.error)
  {
    if !data.email.Str? then Refuse(db, InvalidQueryArgument)
    else if FindByEmail(db.users, data.email.s).Some? then Refuse(db, UserAlreadyExists)
    else if !data.password.Str? then Refuse(db, IllegalHashArguments)
    else
      var hashed := HashPassword(data.password.s, salt);
      var firstName := Column(data.firstName, None);
      var lastName := Column(data.lastName, None);
      var deviceId := Column(data.deviceId, None);
      if firstName.Failure? || lastName.Failure? || deviceId.Failure? then Refuse(db, InvalidQueryArgument)
      else
        var user := User(db.nextId, Some(data.email.s), deviceId.value, Some(hashed),
                         firstName.value, lastName.value, Email, None, None);
        match Write(db.users, user)
        case Failure(e) => Refuse(db, e)
        case Success(users) => GenerateTokens(Db(users, db.nextId + 1, db.nextSerial), user, now)
  }

  /**
   * `registerUserWithEmail(data)`: with a truthy `deviceId` that some row
   * holds, link the email to that row; otherwise register a new user.
   */
  function RegisterUserWithEmail(db: Db, data: Body, salt: nat, now: int): (s: Step)
    requires Valid(db)
    ensures Valid(s.db)
    ensures s.result.Failure? ==> s.db == db
    ensures s.result.Failure? ==> IsDomainError(s.result.error) || IsLibraryError(s.result.error)
  {
    if Truthy(data.deviceId) then
      if !data.deviceId.Str? then Refuse(db, InvalidQueryArgument)
      else
        var existingDeviceUser := FindByDeviceId(db.users, data.deviceId.s);
        if existingDeviceUser.Some? then LinkEmail(db, existingDeviceUser.value, data, salt, now)
        else CreateEmailUser(db, data, salt, now)
    else
      CreateEmailUser(db, data, salt, now)
  }

  /** `registerUserWithDevice(data)`: a fresh `DEVICE` row with a made-up email. */
  function RegisterUserWithDevice(db: Db, data: Body, now: int): (s: Step)
    requires Valid(db)
    ensures Valid(s.db)
    ensures s.result.Failure? ==> s.db == db
    ensures s.result.Failure? ==> IsDomainError(s.result.error) || IsLibraryError(s.result.error)
  {
    if !data.deviceId.Str? then Refuse(db, InvalidQueryArgument)
    else if FindByDeviceId(db.users, data.deviceId.s).Some? then Refuse(db, UserAlreadyExists)
    else
      var user := User(db.nextId, Some(data.deviceId.s + DeviceEmailDomain), Some(data.deviceId.s),
                       None, None, None, Device, None, None);
      match Write(db.users, user)
      case Failure(e) => Refuse(db, e)
      case Success(users) => GenerateTokens(Db(users, db.nextId + 1, db.nextSerial), user, now)
  }

  /** `loginWithDeviceId(deviceId)`: only a `DEVICE` row may log in by device id. */
  function LoginWithDeviceId(db: Db, deviceId: Field, now: int): (s: Step)
    requires Valid(db)
    ensures Valid(s.db)
    ensures s.result.Failure? ==> s.db == db
    ensures s.result.Failure? ==> IsDomainError(s.result.error) || IsLibraryError(s.result.error)
  {
    if !deviceId.Str? then Refuse(db, InvalidQueryArgument)
    else
      match FindByDeviceId(db.users, deviceId.s)
      case None => Refuse(db, InvalidDeviceId)
      case Some(user) =>
        if user.userType != Device then Refuse(db, DeviceLoginNotAllowed)
        else GenerateTokens(db.(users := db.users[user.id := user.(lastActiveAt := Some(now))]), user, now)
  }

  /**
   * `loginWithEmailAndPassword(email, password, deviceId)`: a missing user,
   * a row without a password and a wrong password fail alike; on success the
   * row's `deviceId` becomes the given one when that is truthy.
   */
  function LoginWithEmailAndPassword(db: Db, email: Field, password: Field, deviceId: Field, now: int): (s: Step)
    requires Valid(db)
    ensures Valid(s.db)
    ensures s.result.Failure? ==> s.db == db
    ensures s.result.Failure? ==> IsDomainError(s.result.error) || IsLibraryError(s.result.error)
  {
    if !email.Str? then Refuse(db, InvalidQueryArgument)
    else
      var user := FindByEmail(db.users, email.s);
      if user.None? || user.value.password.None? then Refuse(db, InvalidEmailOrPassword)
      else if !password.Str? then Refuse(db, IllegalHashArguments)
      else if !CheckPassword(password.s, user.value.password.value) then Refuse(db, InvalidEmailOrPassword)
      else if Truthy(deviceId) && !deviceId.Str? then Refuse(db, InvalidQueryArgument)
      else
        var u := user.value;
        var touched := u.(lastActiveAt := Some(now), deviceId := if Truthy(deviceId) then Some(deviceId.s) else u.deviceId);
        match Write(db.users, touched)
        case Failure(e) => Refuse(db, e)
        case Success(users) => GenerateTokens(db.(users := users), u, now)
  }

  /**
   * `refreshAccessToken(refreshToken)`: the token must verify and be the
   * one stored in its user's row; then a new pair replaces it. `None`
   * stands for a value that is not a token at all (not a string, or a
   * string that does not decode), which the verifier rejects as invalid.
   */
  function RefreshAccessToken(db: Db, presented: Option<Token<Payload>>, now: int): (s: Step)
    requires Valid(db)
    ensures Valid(s.db)
    ensures s.result.Failure? ==> s.db == db
    ensures s.result.Failure? ==> IsDomainError(s.result.error) || IsLibraryError(s.result.error)
  {
    if presented.None? then Refuse(db, InvalidRefreshToken)
    else
      match VerifyRefreshToken(presented.value, now)
      case Failure(e) => Refuse(db, e)
      case Success(payload) =>
        match FindById(db.users, payload.id)
        case None => Refuse(db, InvalidRefreshToken)
        case Some(user) =>
          if user.refreshToken != presented then Refuse(db, InvalidRefreshToken)
          else GenerateTokens(db, user, now)
  }
}
