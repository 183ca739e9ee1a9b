/**
 * What the `AuthService` operations promise, proved about the transition
 * functions of `Accounts` (and so, through their contracts, about the
 * methods of `Service.AuthService`).
 */
module AccountProperties {
  import opened Wrappers
  import opened Errors
  import opened Requests
  import opened Hashing
  import opened Tokens
  import opened Accounts

  /** Some row holds the email. */
  ghost predicate EmailHeld(db: Db, email: string) {
    exists id :: id in db.users && db.users[id].email == Some(email)
  }

  /** Some row holds the device id. */
  ghost predicate DeviceHeld(db: Db, deviceId: string) {
    exists id :: id in db.users && db.users[id].deviceId == Some(deviceId)
  }

  /** Rows other than `id` are as they were. */
  ghost predicate OthersUnchanged(before: Db, after: Db, id: nat) {
    forall other :: other in before.users && other != id ==> other in after.users && after.users[other] == before.users[other]
  }

  /**
   * A registration body that takes the normal path: its `deviceId` is falsy,
   * or a string that no row holds.
   */
  ghost predicate UnknownOrNoDevice(db: Db, deviceId: Field) {
    !Truthy(deviceId) || (deviceId.Str? && !DeviceHeld(db, deviceId.s))
  }

  // ------------------------------------------------------------ registration

  /** Linking a device row to an email that another row holds fails with 409 and changes nothing. */
  lemma LinkConflict(db: Db, data: Body, salt: nat, now: int, owner: nat, other: nat)
    requires Valid(db)
    requires Truthy(data.deviceId) && data.deviceId.Str?
    requires owner in db.users && db.users[owner].deviceId == Some(data.deviceId.s)
    requires data.email.Str? && other in db.users && db.users[other].email == Some(data.email.s)
    requires other != owner
    ensures RegisterUserWithEmail(db, data, salt, now) == Step(db, Failure(EmailAlreadyInUse))
  {
    assert FindByDeviceId(db.users, data.deviceId.s) == Some(db.users[owner]);
    assert FindByEmail(db.users, data.email.s) == Some(db.users[other]);
  }

  /**
   * Linking a device row to an email that is free or already its own
   * updates that row in place: same id, no row added, the new email, the
   * hashed password, the given names and type `EMAIL`.
   */
  lemma LinkSuccess(db: Db, data: Body, salt: nat, now: int, owner: nat)
    requires Valid(db)
    requires Truthy(data.deviceId) && data.deviceId.Str?
    requires owner in db.users && db.users[owner].deviceId == Some(data.deviceId.s)
    requires data.email.Str? && forall id :: id in db.users && db.users[id].email == Some(data.email.s) ==> id == owner
    requires data.password.Str? && data.firstName.Str? && data.lastName.Str?
    ensures var s := RegisterUserWithEmail(db, data, salt, now);
      && s.result.Success?
      && s.db.users.Keys == db.users.Keys && s.db.nextId == db.nextId
      && OthersUnchanged(db, s.db, owner)
      && var row := s.db.users[owner];
      && row.id == owner
      && row.email == Some(data.email.s)
      && row.deviceId == Some(data.deviceId.s)
      && row.password == Some(HashPassword(data.password.s, salt))
      && row.firstName == Some(data.firstName.s) && row.lastName == Some(data.lastName.s)
      && row.userType == Email
      && row.refreshToken == Some(s.result.value.refreshToken)
  {
    var u := db.users[owner];
    assert FindByDeviceId(db.users, data.deviceId.s) == Some(u);
    var updated := u.(email := Some(data.email.s), password := Some(HashPassword(data.password.s, salt)),
                      firstName := Some(data.firstName.s), lastName := Some(data.lastName.s), userType := Email);
    assert !Clashes(db.users, updated);
    assert LinkEmail(db, u, data, salt, now) == GenerateTokens(db.(users := db.users[owner := updated]), updated, now);
  }

  /** A normal-path email registration for an email some row holds fails with 409 and changes nothing. */
  lemma RegistrationOfTakenEmail(db: Db, data: Body, salt: nat, now: int)
    requires Valid(db)
    requires UnknownOrNoDevice(db, data.deviceId)
    requires data.email.Str? && EmailHeld(db, data.email.s)
    ensures RegisterUserWithEmail(db, data, salt, now) == Step(db, Failure(UserAlreadyExists))
  {
  }

  /** A registration whose device id is falsy or unknown takes the normal path. */
  lemma NormalPath(db: Db, data: Body, salt: nat, now: int)
    requires Valid(db)
    requires UnknownOrNoDevice(db, data.deviceId)
    ensures RegisterUserWithEmail(db, data, salt, now) == CreateEmailUser(db, data, salt, now)
  {
    if Truthy(data.deviceId) {
      assert FindByDeviceId(db.users, data.deviceId.s).None?;
    }
  }

  /** The row a normal-path email registration inserts. */
  function NewEmailRow(db: Db, data: Body, salt: nat): User
    requires data.email.Str? && data.password.Str? && data.firstName.Str? && data.lastName.Str?
  {
    User(db.nextId, Some(data.email.s), if data.deviceId.Str? then Some(data.deviceId.s) else None,
         Some(HashPassword(data.password.s, salt)), Some(data.firstName.s), Some(data.lastName.s), Email, None, None)
  }

  /** A registration for a free email and a free (or no) device id inserts `NewEmailRow` and issues tokens for it. */
  lemma RegistrationInsertsRow(db: Db, data: Body, salt: nat, now: int)
    requires Valid(db)
    requires data.email.Str? && !EmailHeld(db, data.email.s)
    requires data.password.Str? && data.firstName.Str? && data.lastName.Str?
    requires data.deviceId.Absent? || data.deviceId.Null? || (data.deviceId.Str? && !DeviceHeld(db, data.deviceId.s))
    ensures db.nextId !in db.users
    ensures var row := NewEmailRow(db, data, salt);
      RegisterUserWithEmail(db, data, salt, now) == GenerateTokens(Db(db.users[db.nextId := row], db.nextId + 1, db.nextSerial), row, now)
  {
    NormalPath(db, data, salt, now);
    var row := NewEmailRow(db, data, salt);
    assert Column(data.deviceId, None) == Success(row.deviceId);
    assert db.nextId !in db.users;
    assert !Clashes(db.users, row);
  }

  /**
   * A normal-path email registration for a free email adds exactly one
   * `EMAIL` row, under a new id, whose password is the hash of the given
   * one; no other row changes.
   */
  lemma RegistrationCreatesOneUser(db: Db, data: Body, salt: nat, now: int)
    requires Valid(db)
    requires data.email.Str? && !EmailHeld(db, data.email.s)
    requires data.password.Str? && data.firstName.Str? && data.lastName.Str?
    requires data.deviceId.Absent? || data.deviceId.Null? || (data.deviceId.Str? && !DeviceHeld(db, data.deviceId.s))
    ensures var s := RegisterUserWithEmail(db, data, salt, now);
      && s.result.Success?
      && db.nextId !in db.users
      && s.db.users.Keys == db.users.Keys + {db.nextId}
      && |s.db.users| == |db.users| + 1
      && s.db.nextId == db.nextId + 1
      && OthersUnchanged(db, s.db, db.nextId)
      && var row := s.db.users[db.nextId];
      && row.id == db.nextId
      && row.email == Some(data.email.s)
      && row.password == Some(HashPassword(data.password.s, salt))
      && row.userType == Email
      && row.deviceId == (if data.deviceId.Str? then Some(data.deviceId.s) else None)
      && row.refreshToken == Some(s.result.value.refreshToken)
  {
    RegistrationInsertsRow(db, data, salt, now);
    var users := db.users[db.nextId := NewEmailRow(db, data, salt)];
    assert users.Keys == db.users.Keys + {db.nextId};
  }

  /**
   * Whichever path it takes, a successful email registration leaves a row
   * that holds the email and the hash of the password.
   */
  lemma RegistrationStoresPassword(db: Db, data: Body, salt: nat, now: int)
    requires Valid(db)
    requires RegisterUserWithEmail(db, data, salt, now).result.Success?
    ensures data.email.Str? && data.password.Str?
    ensures var s := RegisterUserWithEmail(db, data, salt, now);
      exists id :: id in s.db.users && s.db.users[id].email == Some(data.email.s) &&
        s.db.users[id].password == Some(HashPassword(data.password.s, salt))
  {
    var s := RegisterUserWithEmail(db, data, salt, now);
    if Truthy(data.deviceId) && data.deviceId.Str? && FindByDeviceId(db.users, data.deviceId.s).Some? {
      var u := FindByDeviceId(db.users, data.deviceId.s).value;
      assert s == LinkEmail(db, u, data, salt, now);
      assert data.email.Str? && data.password.Str?;
      assert s.db.users[u.id].email == Some(data.email.s);
    } else {
      assert s == CreateEmailUser(db, data, salt, now);
      assert data.email.Str? && data.password.Str?;
      assert s.db.users[db.nextId].email == Some(data.email.s);
    }
  }

  /**
   * An empty-string `deviceId` is falsy, so it never links, but the new row
   * still stores it: a second such registration breaks the unique
   * constraint on `deviceId` and fails without a status code.
   */
  lemma EmptyDeviceIdRegisteredTwice(db: Db, data: Body, salt: nat, now: int, holder: nat)
    requires Valid(db)
    requires data.deviceId == Str("")
    requires holder in db.users && db.users[holder].deviceId == Some("")
    requires data.email.Str? && !EmailHeld(db, data.email.s)
    requires data.password.Str? && data.firstName.Str? && data.lastName.Str?
    ensures RegisterUserWithEmail(db, data, salt, now) == Step(db, Failure(UniqueConstraintFailed))
  {
    var row := User(db.nextId, Some(data.email.s), Some(""), Some(HashPassword(data.password.s, salt)),
                    Some(data.firstName.s), Some(data.lastName.s), Email, None, None);
    assert db.nextId != holder;
    assert Clashes(db.users, row);
  }

  /** Registering the same email twice without a device id: the second call fails with 409. */
  lemma RegisteringTwiceFails(db: Db, data: Body, salt1: nat, salt2: nat, now1: int, now2: int)
    requires Valid(db)
    requires !Truthy(data.deviceId)
    requires RegisterUserWithEmail(db, data, salt1, now1).result.Success?
    ensures var s := RegisterUserWithEmail(db, data, salt1, now1);
      RegisterUserWithEmail(s.db, data, salt2, now2) == Step(s.db, Failure(UserAlreadyExists))
  {
    var s := RegisterUserWithEmail(db, data, salt1, now1);
    assert s.db.users[db.nextId].email == Some(data.email.s);
  }

  /**
   * Registering the same email twice with a new device id: the first call
   * stores a row holding that device id, and the second call finds it and
   * takes the link path, which succeeds on the row's own email. It
   * replaces the stored password with a fresh hash and adds no row.
   */
  lemma RegisteringTwiceWithNewDeviceRelinks(db: Db, data: Body, salt1: nat, salt2: nat, now1: int, now2: int)
    requires Valid(db)
    requires data.email.Str? && !EmailHeld(db, data.email.s)
    requires data.password.Str? && data.firstName.Str? && data.lastName.Str?
    requires Truthy(data.deviceId) && data.deviceId.Str? && !DeviceHeld(db, data.deviceId.s)
    ensures var s := RegisterUserWithEmail(db, data, salt1, now1);
      var t := RegisterUserWithEmail(s.db, data, salt2, now2);
      && s.result.Success?
      && t.result.Success?
      && t.db.users.Keys == s.db.users.Keys
      && t.db.users[db.nextId].email == Some(data.email.s)
      && t.db.users[db.nextId].password == Some(HashPassword(data.password.s, salt2))
  {
    RegistrationCreatesOneUser(db, data, salt1, now1);
    var s := RegisterUserWithEmail(db, data, salt1, now1);
    var owner := db.nextId;
    assert forall id :: id in s.db.users && s.db.users[id].email == Some(data.email.s) ==> id == owner;
    LinkSuccess(s.db, data, salt2, now2, owner);
  }

  /** Device registration for a device id some row holds fails with 409 and changes nothing. */
  lemma DeviceRegistrationOfKnownDevice(db: Db, data: Body, now: int)
    requires Valid(db)
    requires data.deviceId.Str? && DeviceHeld(db, data.deviceId.s)
    ensures RegisterUserWithDevice(db, data, now) == Step(db, Failure(UserAlreadyExists))
  {
  }

  /**
   * Device registration for a new device id adds exactly one `DEVICE` row
   * whose email is the device id followed by "@galacticadevice.com" — unless
   * some row already holds that email, when the unique constraint refuses it.
   */
  lemma DeviceRegistrationCreatesOneUser(db: Db, data: Body, now: int)
    requires Valid(db)
    requires data.deviceId.Str? && !DeviceHeld(db, data.deviceId.s)
    ensures var s := RegisterUserWithDevice(db, data, now);
      var email := data.deviceId.s + "@galacticadevice.com";
      && (EmailHeld(db, email) ==> s == Step(db, Failure(UniqueConstraintFailed)))
      && (!EmailHeld(db, email) ==>
            && s.result.Success?
            && s.db.users.Keys == db.users.Keys + {db.nextId}
            && |s.db.users| == |db.users| + 1
            && OthersUnchanged(db, s.db, db.nextId)
            && s.db.users[db.nextId].email == Some(email)
            && s.db.users[db.nextId].deviceId == Some(data.deviceId.s)
            && s.db.users[db.nextId].password == None
            && s.db.users[db.nextId].userType == Device)
  {
    var email := data.deviceId.s + DeviceEmailDomain;
    var row := User(db.nextId, Some(email), Some(data.deviceId.s), None, None, None, Device, None, None);
    assert db.nextId !in db.users;
    if EmailHeld(db, email) {
      var holder :| holder in db.users && db.users[holder].email == Some(email);
      assert holder != db.nextId;
      assert Clashes(db.users, row);
    } else {
      assert !Clashes(db.users, row);
      assert (db.users[db.nextId := row]).Keys == db.users.Keys + {db.nextId};
    }
  }

  // ------------------------------------------------------------ device login

  /** A device login succeeds exactly for a string device id that a `DEVICE` row holds. */
  lemma DeviceLoginSucceedsIff(db: Db, deviceId: Field, now: int)
    requires Valid(db)
    ensures LoginWithDeviceId(db, deviceId, now).result.Success? <==>
      deviceId.Str? && exists id :: id in db.users && db.users[id].deviceId == Some(deviceId.s) && db.users[id].userType == Device
  {
    if deviceId.Str? && exists id :: id in db.users && db.users[id].deviceId == Some(deviceId.s) && db.users[id].userType == Device {
      var id :| id in db.users && db.users[id].deviceId == Some(deviceId.s) && db.users[id].userType == Device;
      assert FindByDeviceId(db.users, deviceId.s) == Some(db.users[id]);
    }
  }

  /** A device id no row holds is refused with 401 and changes nothing. */
  lemma DeviceLoginUnknown(db: Db, deviceId: string, now: int)
    requires Valid(db)
    requires !DeviceHeld(db, deviceId)
    ensures LoginWithDeviceId(db, Str(deviceId), now) == Step(db, Failure(InvalidDeviceId))
  {
  }

  /** A device id held by an `EMAIL` row is refused with 403 and changes nothing. */
  lemma DeviceLoginOfEmailUser(db: Db, deviceId: string, now: int, holder: nat)
    requires Valid(db)
    requires holder in db.users && db.users[holder].deviceId == Some(deviceId) && db.users[holder].userType == Email
    ensures LoginWithDeviceId(db, Str(deviceId), now) == Step(db, Failure(DeviceLoginNotAllowed))
  {
    assert FindByDeviceId(db.users, deviceId) == Some(db.users[holder]);
  }

  /**
   * A successful device login changes only the holder's row: it stores the
   * new refresh token and the login time. The tokens carry the row as it
   * was read, before the update.
   */
  lemma DeviceLoginSuccess(db: Db, deviceId: string, now: int, holder: nat)
    requires Valid(db)
    requires holder in db.users && db.users[holder].deviceId == Some(deviceId) && db.users[holder].userType == Device
    ensures var s := LoginWithDeviceId(db, Str(deviceId), now);
      && s.result.Success?
      && s.db.users == db.users[holder := db.users[holder].(refreshToken := Some(s.result.value.refreshToken), lastActiveAt := Some(now))]
      && s.db.nextId == db.nextId
      && s.result.value.accessToken.subject == WithoutRefreshToken(db.users[holder])
      && s.result.value.refreshToken.subject == WithoutRefreshToken(db.users[holder])
  {
    assert FindByDeviceId(db.users, deviceId) == Some(db.users[holder]);
  }

  // ------------------------------------------------------------- email login

  /**
   * An unknown email, a row without a password, and a wrong password are
   * refused with the same 401 error, so a caller cannot tell them apart;
   * nothing changes.
   */
  lemma EmailLoginRejects(db: Db, email: string, password: Field, deviceId: Field, now: int)
    requires Valid(db)
    requires
      || !EmailHeld(db, email)
      || (exists id :: id in db.users && db.users[id].email == Some(email) && db.users[id].password.None?)
      || (password.Str? &&
            exists id :: id in db.users && db.users[id].email == Some(email) &&
              db.users[id].password.Some? && !CheckPassword(password.s, db.users[id].password.value))
    ensures LoginWithEmailAndPassword(db, Str(email), password, deviceId, now) == Step(db, Failure(InvalidEmailOrPassword))
  {
    if EmailHeld(db, email) {
      var id :| id in db.users && db.users[id].email == Some(email);
      assert FindByEmail(db.users, email) == Some(db.users[id]);
    }
  }

  /**
   * An email login succeeds exactly when the email's row has a password,
   * the given password is a string that checks against it, and the given
   * device id is falsy or a string that no other row holds.
   */
  lemma EmailLoginSucceedsIff(db: Db, email: string, password: Field, deviceId: Field, now: int)
    requires Valid(db)
    ensures LoginWithEmailAndPassword(db, Str(email), password, deviceId, now).result.Success? <==>
      exists id ::
        && id in db.users && db.users[id].email == Some(email)
        && db.users[id].password.Some?
        && password.Str? && CheckPassword(password.s, db.users[id].password.value)
        && (!Truthy(deviceId) || (deviceId.Str? && forall other :: other in db.users && other != id ==> db.users[other].deviceId != Some(deviceId.s)))
  {
    if EmailHeld(db, email) {
      var id :| id in db.users && db.users[id].email == Some(email);
      var u := db.users[id];
      assert FindByEmail(db.users, email) == Some(u);
      if u.password.Some? && password.Str? && CheckPassword(password.s, u.password.value) && (!Truthy(deviceId) || deviceId.Str?) {
        var touched := u.(lastActiveAt := Some(now), deviceId := if Truthy(deviceId) then Some(deviceId.s) else u.deviceId);
        if Truthy(deviceId) {
          assert Clashes(db.users, touched) <==>
            exists other :: other in db.users && other != id && db.users[other].deviceId == Some(deviceId.s);
        } else {
          assert !Clashes(db.users, touched);
        }
      }
    }
  }

  /**
   * A successful email login changes only that row: its device id becomes
   * the given one when that is truthy and stays otherwise, and it stores
   * the new refresh token and the login time. The tokens carry the row as
   * it was read, with the old device id and login time.
   */
  lemma EmailLoginSuccess(db: Db, email: string, password: string, deviceId: Field, now: int, id: nat)
    requires Valid(db)
    requires id in db.users && db.users[id].email == Some(email)
    requires db.users[id].password.Some? && CheckPassword(password, db.users[id].password.value)
    requires !Truthy(deviceId) || (deviceId.Str? && forall other :: other in db.users && other != id ==> db.users[other].deviceId != Some(deviceId.s))
    ensures var s := LoginWithEmailAndPassword(db, Str(email), Str(password), deviceId, now);
      && s.result.Success?
      && s.db.users.Keys == db.users.Keys && s.db.nextId == db.nextId
      && OthersUnchanged(db, s.db, id)
      && s.db.users[id].deviceId == (if Truthy(deviceId) then Some(deviceId.s) else db.users[id].deviceId)
      && s.db.users[id].lastActiveAt == Some(now)
      && s.db.users[id].refreshToken == Some(s.result.value.refreshToken)
      && s.db.users[id].password == db.users[id].password
      && s.result.value.accessToken.subject == WithoutRefreshToken(db.users[id])
      && s.result.value.refreshToken.subject == WithoutRefreshToken(db.users[id])
  {
    var u := db.users[id];
    assert FindByEmail(db.users, email) == Some(u);
    var touched := u.(lastActiveAt := Some(now), deviceId := if Truthy(deviceId) then Some(deviceId.s) else u.deviceId);
    assert !Clashes(db.users, touched);
  }

  /**
   * An email login that names a device id another row holds gets past the
   * password check and is then refused by the unique constraint on
   * `deviceId`, with no status code.
   */
  lemma EmailLoginWithForeignDevice(db: Db, email: string, password: string, deviceId: string, now: int, id: nat, other: nat)
    requires Valid(db)
    requires id in db.users && db.users[id].email == Some(email)
    requires db.users[id].password.Some? && CheckPassword(password, db.users[id].password.value)
    requires deviceId != "" && other in db.users && other != id && db.users[other].deviceId == Some(deviceId)
    ensures LoginWithEmailAndPassword(db, Str(email), Str(password), Str(deviceId), now) == Step(db, Failure(UniqueConstraintFailed))
  {
    var u := db.users[id];
    assert FindByEmail(db.users, email) == Some(u);
    var touched := u.(lastActiveAt := Some(now), deviceId := Some(deviceId));
    assert Clashes(db.users, touched);
  }

  /** A password that is not a string reaches bcrypt, which throws, once the row has a password. */
  lemma EmailLoginWithNonStringPassword(db: Db, email: string, password: Field, deviceId: Field, now: int, id: nat)
    requires Valid(db)
    requires id in db.users && db.users[id].email == Some(email) && db.users[id].password.Some?
    requires !password.Str?
    ensures LoginWithEmailAndPassword(db, Str(email), password, deviceId, now) == Step(db, Failure(IllegalHashArguments))
  {
    assert FindByEmail(db.users, email) == Some(db.users[id]);
  }

  // ---------------------------------------------------------------- issuance

  /**
   * The refresh token `generateTokens` stores is new: it differs from every
   * refresh token stored before, its own row's included.
   */
  lemma IssuedRefreshTokenIsFresh(db: Db, user: User, now: int)
    requires Valid(db) && user.id in db.users
    ensures var s := GenerateTokens(db, user, now);
      forall id :: id in db.users ==> db.users[id].refreshToken != Some(s.result.value.refreshToken)
  {
    var s := GenerateTokens(db, user, now);
    forall id | id in db.users
      ensures db.users[id].refreshToken != Some(s.result.value.refreshToken)
    {
      assert StoredTokenOk(db.users[id], db.nextSerial);
    }
  }

  /**
   * The issued pair verifies: the access token for 15 minutes and the
   * refresh token for 7 days, each with its own verifier only, both
   * carrying the same subject.
   */
  lemma IssuedTokensVerify(db: Db, user: User, now: int, at: int)
    requires Valid(db) && user.id in db.users
    ensures var t := GenerateTokens(db, user, now).result.value;
      && VerifyToken(t.accessToken, at) == (if at < now + AccessLifetime then Success(WithoutRefreshToken(user)) else Failure(TokenExpired))
      && VerifyRefreshToken(t.refreshToken, at) == (if at < now + RefreshLifetime then Success(WithoutRefreshToken(user)) else Failure(RefreshTokenExpired))
      && VerifyRefreshToken(t.accessToken, at).Failure?
      && VerifyToken(t.refreshToken, at).Failure?
  {
  }

  // ----------------------------------------------------------------- refresh

  /**
   * A refresh succeeds exactly for a token that verifies as a refresh token
   * and is the one stored in its subject's row.
   */
  lemma RefreshSucceedsIff(db: Db, presented: Option<Token<Payload>>, now: int)
    requires Valid(db)
    ensures RefreshAccessToken(db, presented, now).result.Success? <==>
      && presented.Some?
      && VerifyRefreshToken(presented.value, now).Success?
      && presented.value.subject.id in db.users
      && db.users[presented.value.subject.id].refreshToken == presented
  {
  }

  /** The refresh token a row stores refreshes until it expires. */
  lemma StoredTokenRefreshes(db: Db, id: nat, now: int)
    requires Valid(db)
    requires id in db.users && db.users[id].refreshToken.Some?
    requires now < db.users[id].refreshToken.value.expiresAt
    ensures var s := RefreshAccessToken(db, db.users[id].refreshToken, now);
      && s.result.Success?
      && s.db.users[id].refreshToken == Some(s.result.value.refreshToken)
      && s.result.value.refreshToken != db.users[id].refreshToken.value
  {
    IssuedRefreshTokenIsFresh(db, db.users[id], now);
  }

  /**
   * Rotation: once a refresh has succeeded, the token it consumed no longer
   * refreshes, then or later; it is refused as invalid or, past its
   * lifetime, as expired.
   */
  lemma RefreshRevokesPresentedToken(db: Db, presented: Token<Payload>, now: int, later: int)
    requires Valid(db)
    requires RefreshAccessToken(db, Some(presented), now).result.Success?
    ensures var s := RefreshAccessToken(db, Some(presented), now);
      RefreshAccessToken(s.db, Some(presented), later) ==
        Step(s.db, Failure(if later >= presented.expiresAt then RefreshTokenExpired else InvalidRefreshToken))
  {
    var id := presented.subject.id;
    IssuedRefreshTokenIsFresh(db, db.users[id], now);
  }

  // ----------------------------------------------------------------- linking

  /**
   * After a device row is linked to an email, the device id no longer logs
   * in on its own (403), while the email and the password do.
   */
  lemma LinkedAccountLogins(db: Db, data: Body, salt: nat, now: int, owner: nat, later: int)
    requires Valid(db)
    requires Truthy(data.deviceId) && data.deviceId.Str?
    requires owner in db.users && db.users[owner].deviceId == Some(data.deviceId.s)
    requires data.email.Str? && forall id :: id in db.users && db.users[id].email == Some(data.email.s) ==> id == owner
    requires data.password.Str? && data.firstName.Str? && data.lastName.Str?
    ensures var s := RegisterUserWithEmail(db, data, salt, now);
      && LoginWithDeviceId(s.db, data.deviceId, later) == Step(s.db, Failure(DeviceLoginNotAllowed))
      && LoginWithEmailAndPassword(s.db, data.email, data.password, Absent, later).result.Success?
  {
    LinkSuccess(db, data, salt, now, owner);
    var s := RegisterUserWithEmail(db, data, salt, now);
    DeviceLoginOfEmailUser(s.db, data.deviceId.s, later, owner);
    EmailLoginSuccess(s.db, data.email.s, data.password.s, Absent, later, owner);
  }
}
