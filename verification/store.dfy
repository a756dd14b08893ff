/** The credential store and the flows that change it: src/session.js,
    src/token.js and src/user.js. The three SQLite tables are fields of one
    object; each exported operation is a method that runs the same guarded
    lookups and the same writes, in the same order, as the source. */
module AuthStore {
  import opened Records
  import opened Queries

  /** What `loginUser` hands back. */
  datatype LoginInfo = LoginInfo(sessionId: Id, userId: Id, username: string)

  /** `generateRandomNumbers`: six draws of `Math.floor(Math.random() * 10)`,
      each draw an arbitrary number in [0, 1). */
  method GenerateRandomNumbers() returns (numbers: seq<nat>)
    ensures |numbers| == 6
    ensures forall k :: 0 <= k < |numbers| ==> numbers[k] <= 9
  {
    numbers := [];
    for i := 0 to 6
      invariant |numbers| == i
      invariant forall k :: 0 <= k < |numbers| ==> numbers[k] <= 9
    {
      var random: real :| 0.0 <= random < 1.0;
      numbers := numbers + [(random * 10.0).Floor];
    }
  }

  class Store {
    /** The `user` table, in row-id order. */
    var users: seq<User>
    /** The `session` table, in row-id order. */
    var sessions: seq<Session>
    /** The `auth_token` table, in row-id order. */
    var tokens: seq<AuthToken>
    /** The password-hash primitive the flows call. */
    const bcrypt: Bcrypt

    ghost predicate Valid()
      reads this
    {
      TablesValid(users, sessions, tokens) && Faithful(bcrypt)
    }

    constructor (bcrypt: Bcrypt)
      requires Faithful(bcrypt)
      ensures Valid()
      ensures this.bcrypt == bcrypt && users == [] && sessions == [] && tokens == []
    {
      this.bcrypt := bcrypt;
      users, sessions, tokens := [], [], [];
    }

    // ------------------------------------------------------------ session.js

    /** `createSession`: inserts a session under a fresh uuid and returns the
        driver's last-insert row id, which is the new row's 1-based position,
        not the uuid it stored. */
    method CreateSession(userId: Id, active: Option<int>, now: int) returns (id: Id)
      requires Valid()
      modifies this
      ensures Valid()
      ensures SessionAppended(old(sessions), sessions, userId, active, now)
      ensures users == old(users) && tokens == old(tokens)
      ensures id == RowNum(|sessions|)
    {
      var keys := SessionKeys(sessions);
      assert Uuid(UuidBound(keys)) !in keys;
      var key: nat :| Uuid(key) !in keys;
      sessions := sessions + [Session(Uuid(key), userId, now, active, false)];
      assert SessionKeys(sessions) == keys + [Uuid(key)];
      id := RowNum(|sessions|);
    }

    /** `activateSession`: `active := 1` on the rows with that key. */
    method ActivateSession(sessionId: Id)
      requires Valid()
      modifies this
      ensures Valid()
      ensures sessions == Activated(old(sessions), sessionId)
      ensures users == old(users) && tokens == old(tokens)
    {
      var before := sessions;
      sessions := Activated(sessions, sessionId);
      assert SessionKeys(sessions) == SessionKeys(before);
    }

    // ------------------------------------------------------------ token.js

    /** `createAuthToken`: inserts a token row under a fresh uuid and returns
        the last-insert row id. */
    method CreateAuthToken(tokenType: TokenType, token: string, userId: Id, sessionId: Id) returns (id: Id)
      requires Valid()
      modifies this
      ensures Valid()
      ensures TokenAppended(old(tokens), tokens, tokenType, token, userId, sessionId)
      ensures users == old(users) && sessions == old(sessions)
      ensures id == RowNum(|tokens|)
    {
      var keys := TokenKeys(tokens);
      assert Uuid(UuidBound(keys)) !in keys;
      var key: nat :| Uuid(key) !in keys;
      tokens := tokens + [AuthToken(Uuid(key), userId, sessionId, token, TypeCode(tokenType), false)];
      assert TokenKeys(tokens) == keys + [Uuid(key)];
      id := RowNum(|tokens|);
    }

    /** `deactivateAuthToken`: `deleted := 1` on the rows with that key. */
    method DeactivateAuthToken(tokenId: Id)
      requires Valid()
      modifies this
      ensures Valid()
      ensures tokens == Deactivated(old(tokens), tokenId)
      ensures users == old(users) && sessions == old(sessions)
    {
      var before := tokens;
      tokens := Deactivated(tokens, tokenId);
      assert TokenKeys(tokens) == TokenKeys(before);
    }

    /** `createTwoFactorCode`: six random digits, their `'-'` join hashed with
        a fresh salt and stored as a two-factor token; the digits and the
        last-insert row id are returned. */
    method CreateTwoFactorCode(userId: Id, sessionId: Id) returns (tokenId: Id, numbers: seq<nat>)
      requires Valid()
      modifies this
      ensures Valid()
      ensures |numbers| == 6 && forall k :: 0 <= k < 6 ==> numbers[k] <= 9
      ensures exists salt: nat :: TokenAppended(old(tokens), tokens, TwoFactor, bcrypt.hash(Join(numbers), salt), userId, sessionId)
      ensures bcrypt.compare(Join(numbers), tokens[|old(tokens)|].token)
      ensures users == old(users) && sessions == old(sessions)
      ensures tokenId == RowNum(|tokens|)
    {
      numbers := GenerateRandomNumbers();
      var salt: nat :| true;
      var token := bcrypt.hash(Join(numbers), salt);
      tokenId := CreateAuthToken(TwoFactor, token, userId, sessionId);
    }

    /** `authenticateTwoFactorCode`: the scoped lookup by token_id, the hash
        compare of the joined digits, then the two writes. */
    method AuthenticateTwoFactorCode(numbers: seq<nat>, tokenId: Id, userId: Id, sessionId: Id) returns (r: Result<bool>)
      requires Valid()
      modifies this
      ensures Valid()
      ensures var found := FindToken(old(tokens), TokenQuery(ById(tokenId), userId, sessionId, TwoFactor));
        && (found.None? ==> r == Err(TokenNotFound))
        && (found.Some? && !bcrypt.compare(Join(numbers), old(tokens)[found.value].token) ==> r == Err(TokenInvalid))
        && (found.Some? && bcrypt.compare(Join(numbers), old(tokens)[found.value].token) ==> r == Ok(true))
      ensures r.Err? ==> unchanged(this)
      ensures r.Ok? ==> tokens == Deactivated(old(tokens), tokenId) && sessions == Activated(old(sessions), sessionId)
      ensures users == old(users)
    {
      var found := FindToken(tokens, TokenQuery(ById(tokenId), userId, sessionId, TwoFactor));
      if found.None? {
        return Err(TokenNotFound);
      }
      var verified := bcrypt.compare(Join(numbers), tokens[found.value].token);
      if !verified {
        return Err(TokenInvalid);
      }
      DeactivateAuthToken(tokenId);
      ActivateSession(sessionId);
      r := Ok(true);
    }

    /** `createEmailLoginToken`: stores the caller's secret as-is. */
    method CreateEmailLoginToken(token: string, userId: Id, sessionId: Id) returns (tokenId: Id)
      requires Valid()
      modifies this
      ensures Valid()
      ensures TokenAppended(old(tokens), tokens, EmailLogin, token, userId, sessionId)
      ensures users == old(users) && sessions == old(sessions)
      ensures tokenId == RowNum(|tokens|)
    {
      tokenId := CreateAuthToken(EmailLogin, token, userId, sessionId);
    }

    /** `authenticateLoginToken`: the scoped lookup by secret; on a match the
        matched row's token_id is deactivated and the session activated. */
    method AuthenticateLoginToken(token: string, userId: Id, sessionId: Id) returns (r: Result<bool>)
      requires Valid()
      modifies this
      ensures Valid()
      ensures var found := FindToken(old(tokens), TokenQuery(BySecret(token), userId, sessionId, EmailLogin));
        && (found.None? <==> r == Err(TokenNotFound))
        && (found.Some? ==>
              && r == Ok(true)
              && tokens == Deactivated(old(tokens), old(tokens)[found.value].tokenId)
              && sessions == Activated(old(sessions), sessionId))
      ensures r.Err? ==> unchanged(this)
      ensures users == old(users)
    {
      var found := FindToken(tokens, TokenQuery(BySecret(token), userId, sessionId, EmailLogin));
      if found.None? {
        return Err(TokenNotFound);
      }
      var matched := tokens[found.value].tokenId;
      DeactivateAuthToken(matched);
      ActivateSession(sessionId);
      r := Ok(true);
    }

    /** `createPasswordRenewalToken`: stores the caller's secret as-is. */
    method CreatePasswordRenewalToken(token: string, userId: Id, sessionId: Id) returns (tokenId: Id)
      requires Valid()
      modifies this
      ensures Valid()
      ensures TokenAppended(old(tokens), tokens, PasswordRenewal, token, userId, sessionId)
      ensures users == old(users) && sessions == old(sessions)
      ensures tokenId == RowNum(|tokens|)
    {
      tokenId := CreateAuthToken(PasswordRenewal, token, userId, sessionId);
    }

    /** `changePassword`: hashes the new password, runs the scoped lookup by
        secret, deactivates the matched token and rewrites the password of
        every row with that user_id. The session table is never written. */
    method ChangePassword(password: string, token: string, userId: Id, sessionId: Id) returns (r: Result<()>)
      requires Valid()
      modifies this
      ensures Valid()
      ensures var found := FindToken(old(tokens), TokenQuery(BySecret(token), userId, sessionId, PasswordRenewal));
        && (found.None? <==> r == Err(TokenNotFound))
        && (found.Some? ==>
              && r.Ok?
              && tokens == Deactivated(old(tokens), old(tokens)[found.value].tokenId)
              && exists salt: nat :: users == PasswordSet(old(users), userId, bcrypt.hash(password, salt)))
      ensures r.Err? ==> unchanged(this)
      ensures sessions == old(sessions)
    {
      var salt: nat :| true;
      var hashedPassword := bcrypt.hash(password, salt);
      var found := FindToken(tokens, TokenQuery(BySecret(token), userId, sessionId, PasswordRenewal));
      if found.None? {
        return Err(TokenNotFound);
      }
      var matched := tokens[found.value].tokenId;
      DeactivateAuthToken(matched);
      PasswordSetKeepsInvariant(users, sessions, tokens, userId, hashedPassword);
      users := PasswordSet(users, userId, hashedPassword);
      r := Ok(());
    }

    // ------------------------------------------------------------ user.js

    /** `registerUser`: the duplicate guard checks the username (and not the
        email) against both columns, then a user row with `extra = '{}'` is
        inserted under a fresh uuid, which is returned. */
    method RegisterUser(username: string, password: string, email: string) returns (r: Result<Id>)
      requires Valid()
      modifies this
      ensures Valid()
      ensures old(UserExists(users, username)) ==> r == Err(UserAlreadyExists) && unchanged(this)
      ensures !old(UserExists(users, username)) ==> r.Ok?
      ensures r.Ok? ==> exists salt: nat ::
        UserAppended(old(users), users, User(r.value, username, bcrypt.hash(password, salt), email, "{}", false))
      ensures UserExists(users, username)
      ensures sessions == old(sessions) && tokens == old(tokens)
    {
      var taken := UserExists(users, username);
      if taken {
        return Err(UserAlreadyExists);
      }
      var keys := UserKeys(users);
      assert Uuid(UuidBound(keys)) !in keys;
      var key: nat :| Uuid(key) !in keys;
      var salt: nat :| true;
      var hashedPassword := bcrypt.hash(password, salt);
      var row := User(Uuid(key), username, hashedPassword, email, "{}", false);
      var before := users;
      users := users + [row];
      assert UserKeys(users) == keys + [Uuid(key)];
      assert users[|before|] == row;
      r := Ok(Uuid(key));
    }

    /** `loginUser`: the live user with that username, the password compare,
        then a new session whose `active` is NULL (the argument is left
        undefined), identified by its last-insert row id. */
    method LoginUser(username: string, password: string, now: int) returns (r: Result<LoginInfo>)
      requires Valid()
      modifies this
      ensures Valid()
      ensures var found := FindLoginUser(old(users), username);
        && (found.None? ==> r == Err(UserNotFound))
        && (found.Some? && !bcrypt.compare(password, old(users)[found.value].password) ==> r == Err(CredentialsInvalid))
        && (found.Some? && bcrypt.compare(password, old(users)[found.value].password) ==>
              && r == Ok(LoginInfo(RowNum(|sessions|), old(users)[found.value].userId, username))
              && SessionAppended(old(sessions), sessions, old(users)[found.value].userId, None, now))
      ensures r.Err? ==> unchanged(this)
      ensures users == old(users) && tokens == old(tokens)
    {
      var found := FindLoginUser(users, username);
      if found.None? {
        return Err(UserNotFound);
      }
      var user := users[found.value];
      var verified := bcrypt.compare(password, user.password);
      if !verified {
        return Err(CredentialsInvalid);
      }
      var sessionId := CreateSession(user.userId, None, now);
      r := Ok(LoginInfo(sessionId, user.userId, username));
    }
  }
}
