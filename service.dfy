/**
 * `AuthService` as an object over the user table: the table, the id the
 * database assigns next and the serial of the next token are fields that
 * the methods update in place, one database write at a time. Each method
 * is proved to leave the object in the state, and to return the outcome,
 * that the matching transition of `Accounts` gives for the state before
 * the call, so every property proved about those transitions holds of the
 * methods too.
 *
 * The clock (`now`) and bcrypt's random salt (`salt`) are parameters.
 */
module Service {
  import opened Wrappers
  import opened Errors
  import opened Requests
  import opened Hashing
  import opened Tokens
  import opened Accounts

  class AuthService {
    var users: map<nat, User>
    var nextId: nat
    var nextSerial: nat

    /** The table and counters as one value. */
    function State(): Db
      reads this
    {
      Db(users, nextId, nextSerial)
    }

    ghost predicate Valid()
      reads this
    {
      Accounts.Valid(State())
    }

    /** An empty table. */
    constructor ()
      ensures Valid()
      ensures State() == Db(map[], 0, 0)
    {
      users := map[];
      nextId := 0;
      nextSerial := 0;
    }

    /**
     * `prisma.user.create`: the new row gets the next id, unless a unique
     * constraint refuses it, in which case nothing changes.
     */
    method Insert(row: User) returns (r: Result<User, Error>)
      requires Valid()
      requires row.id == nextId && row.email.Some? && row.refreshToken.None?
      modifies this
      ensures Valid()
      ensures r.Failure? <==> Clashes(old(users), row)
      ensures r.Failure? ==> r.error == UniqueConstraintFailed && State() == old(State())
      ensures r.Success? ==> r.value == row && State() == Db(old(users)[row.id := row], old(nextId) + 1, old(nextSerial))
    {
      if Clashes(users, row) {
        return Failure(UniqueConstraintFailed);
      }
      users := users[row.id := row];
      nextId := nextId + 1;
      return Success(row);
    }

    /**
     * `prisma.user.update` of an existing row, unless a unique constraint
     * refuses it, in which case nothing changes.
     */
    method Update(row: User) returns (r: Result<User, Error>)
      requires Valid()
      requires row.id in users && row.email.Some? && StoredTokenOk(row, nextSerial)
      modifies this
      ensures Valid()
      ensures r.Failure? <==> Clashes(old(users), row)
      ensures r.Failure? ==> r.error == UniqueConstraintFailed && State() == old(State())
      ensures r.Success? ==> r.value == row && State() == old(State()).(users := old(users)[row.id := row])
    {
      if Clashes(users, row) {
        return Failure(UniqueConstraintFailed);
      }
      users := users[row.id := row];
      return Success(row);
    }

    /** `generateTokens(user)`. */
    method GenerateTokens(user: User, now: int) returns (tokens: TokenPair)
      requires Valid() && user.id in users
      modifies this
      ensures Valid()
      ensures Step(State(), Success(tokens)) == Accounts.GenerateTokens(old(State()), user, now)
    {
      var subject := WithoutRefreshToken(user);
      var accessToken := SignToken(subject, nextSerial, now);
      var refreshToken := SignRefreshToken(subject, nextSerial, now);
      users := users[user.id := users[user.id].(refreshToken := Some(refreshToken), lastActiveAt := Some(now))];
      nextSerial := nextSerial + 1;
      tokens := TokenPair(accessToken, refreshToken);
    }

    /** `registerUserWithEmail(data)`. */
    method RegisterUserWithEmail(data: Body, salt: nat, now: int) returns (r: Result<TokenPair, Error>)
      requires Valid()
      modifies this
      ensures Valid()
      ensures Step(State(), r) == Accounts.RegisterUserWithEmail(old(State()), data, salt, now)
    {
      if Truthy(data.deviceId) {
        if !data.deviceId.Str? {
          return Failure(InvalidQueryArgument);
        }
        var existingDeviceUser := FindByDeviceId(users, data.deviceId.s);
        if existingDeviceUser.Some? {
          r := LinkEmail(existingDeviceUser.value, data, salt, now);
          return;
        }
      }
      r := CreateEmailUser(data, salt, now);
    }

    /** The branch of `registerUserWithEmail` that links an email to a device row. */
    method LinkEmail(deviceUser: User, data: Body, salt: nat, now: int) returns (r: Result<TokenPair, Error>)
      requires Valid() && deviceUser.id in users && users[deviceUser.id] == deviceUser
      modifies this
      ensures Valid()
      ensures Step(State(), r) == Accounts.LinkEmail(old(State()), deviceUser, data, salt, now)
    {
      if !data.email.Str? {
        return Failure(InvalidQueryArgument);
      }
      var emailTaken := FindByEmail(users, data.email.s);
      if emailTaken.Some? && emailTaken.value.id != deviceUser.id {
        return Failure(EmailAlreadyInUse);
      }
      if !data.password.Str? {
        return Failure(IllegalHashArguments);
      }
      var hashed := HashPassword(data.password.s, salt);
      var firstName := Column(data.firstName, deviceUser.firstName);
      var lastName := Column(data.lastName, deviceUser.lastName);
      if firstName.Failure? || lastName.Failure? {
        return Failure(InvalidQueryArgument);
      }
      var updated := deviceUser.(email := Some(data.email.s), password := Some(hashed),
                                 firstName := firstName.value, lastName := lastName.value, userType := Email);
      var saved := Update(updated);
      if saved.Failure? {
        return Failure(saved.error);
      }
      var tokens := GenerateTokens(updated, now);
      return Success(tokens);
    }

    /** The branch of `registerUserWithEmail` that creates a new `EMAIL` row. */
    method CreateEmailUser(data: Body, salt: nat, now: int) returns (r: Result<TokenPair, Error>)
      requires Valid()
      modifies this
      ensures Valid()
      ensures Step(State(), r) == Accounts.CreateEmailUser(old(State()), data, salt, now)
    {
      if !data.email.Str? {
        return Failure(InvalidQueryArgument);
      }
      if FindByEmail(users, data.email.s).Some? {
        return Failure(UserAlreadyExists);
      }
      if !data.password.Str? {
        return Failure(IllegalHashArguments);
      }
      var hashed := HashPassword(data.password.s, salt);
      var firstName := Column(data.firstName, None);
      var lastName := Column(data.lastName, None);
      var deviceId := Column(data.deviceId, None);
      if firstName.Failure? || lastName.Failure? || deviceId.Failure? {
        return Failure(InvalidQueryArgument);
      }
      var user := User(nextId, Some(data.email.s), deviceId.value, Some(hashed),
                       firstName.value, lastName.value, Email, None, None);
      var created := Insert(user);
      if created.Failure? {
        return Failure(created.error);
      }
      var tokens := GenerateTokens(user, now);
      return Success(tokens);
    }

    /** `registerUserWithDevice(data)`. */
    method RegisterUserWithDevice(data: Body, now: int) returns (r: Result<TokenPair, Error>)
      requires Valid()
      modifies this
      ensures Valid()
      ensures Step(State(), r) == Accounts.RegisterUserWithDevice(old(State()), data, now)
    {
      if !data.deviceId.Str? {
        return Failure(InvalidQueryArgument);
      }
      if FindByDeviceId(users, data.deviceId.s).Some? {
        return Failure(UserAlreadyExists);
      }
      var user := User(nextId, Some(data.deviceId.s + DeviceEmailDomain), Some(data.deviceId.s),
                       None, None, None, Device, None, None);
      var created := Insert(user);
      if created.Failure? {
        return Failure(created.error);
      }
      var tokens := GenerateTokens(user, now);
      return Success(tokens);
    }

    /** `loginWithDeviceId(deviceId)`. */
    method LoginWithDeviceId(deviceId: Field, now: int) returns (r: Result<TokenPair, Error>)
      requires Valid()
      modifies this
      ensures Valid()
      ensures Step(State(), r) == Accounts.LoginWithDeviceId(old(State()), deviceId, now)
    {
      if !deviceId.Str? {
        return Failure(InvalidQueryArgument);
      }
      var user := FindByDeviceId(users, deviceId.s);
      if user.None? {
        return Failure(InvalidDeviceId);
      }
      if user.value.userType != Device {
        return Failure(DeviceLoginNotAllowed);
      }
      users := users[user.value.id := user.value.(lastActiveAt := Some(now))];
      var tokens := GenerateTokens(user.value, now);
      return Success(tokens);
    }

    /** `loginWithEmailAndPassword(email, password, deviceId)`. */
    method LoginWithEmailAndPassword(email: Field, password: Field, deviceId: Field, now: int) returns (r: Result<TokenPair, Error>)
      requires Valid()
      modifies this
      ensures Valid()
      ensures Step(State(), r) == Accounts.LoginWithEmailAndPassword(old(State()), email, password, deviceId, now)
    {
      if !email.Str? {
        return Failure(InvalidQueryArgument);
      }
      var user := FindByEmail(users, email.s);
      if user.None? || user.value.password.None? {
        return Failure(InvalidEmailOrPassword);
      }
      if !password.Str? {
        return Failure(IllegalHashArguments);
      }
      if !CheckPassword(password.s, user.value.password.value) {
        return Failure(InvalidEmailOrPassword);
      }
      if Truthy(deviceId) && !deviceId.Str? {
        return Failure(InvalidQueryArgument);
      }
      var u := user.value;
      var touched := u.(lastActiveAt := Some(now), deviceId := if Truthy(deviceId) then Some(deviceId.s) else u.deviceId);
      var saved := Update(touched);
      if saved.Failure? {
        return Failure(saved.error);
      }
      var tokens := GenerateTokens(u, now);
      return Success(tokens);
    }

    /** `refreshAccessToken(refreshToken)`. */
    method RefreshAccessToken(presented: Option<Token<Payload>>, now: int) returns (r: Result<TokenPair, Error>)
      requires Valid()
      modifies this
      ensures Valid()
      ensures Step(State(), r) == Accounts.RefreshAccessToken(old(State()), presented, now)
    {
      if presented.None? {
        return Failure(InvalidRefreshToken);
      }
      var payload := VerifyRefreshToken(presented.value, now);
      if payload.Failure? {
        return Failure(payload.error);
      }
      var user := FindById(users, payload.value.id);
      if user.None? || user.value.refreshToken != presented {
        return Failure(InvalidRefreshToken);
      }
      var tokens := GenerateTokens(user.value, now);
      return Success(tokens);
    }
  }
}
