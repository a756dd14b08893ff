/** Client walk-throughs: the flows called in sequence on a fresh store, each
    caller passing on exactly the ids the previous calls handed back. */
module Scenarios {
  import opened Records
  import opened Queries
  import opened AuthStore
  import TokenFacts
  import SessionFacts
  import UserFacts

  /** Register and log in, then register two more users. Login succeeds
      with the registered password and returns the registered user id, but
      the session id it returns is a row id, so `authenticate` on it finds
      nothing. A second user may reuse the first user's email, but the first
      user's email is refused as a username. */
  method RegistrationWalkthrough(b: Bcrypt, now: int)
    returns (alice: Id, sessionId: Id, check: Result<AuthInfo>, bob: Result<Id>, carol: Result<Id>)
    requires Faithful(b)
    ensures sessionId == RowNum(1)
    ensures check == Err(SessionNotFound)
    ensures bob.Ok? && bob.value != alice
    ensures carol == Err(UserAlreadyExists)
  {
    var store, userId, loginSession := AliceLoggedIn(b, now);
    alice, sessionId := userId, loginSession;
    check := Authenticate(store.users, store.sessions, sessionId, now);
    SessionFacts.ReturnedSessionIdNeverAuthenticates(store.users, store.sessions, 1, now);
    ghost var aliceRow := store.users[0];
    assert store.users == [aliceRow];
    assert UserKeys(store.users) == [alice];
    assert !UserExists(store.users, "bob");
    bob := store.RegisterUser("bob", "hunter2", "alice@x.com");
    assert store.users[..1] == [aliceRow];
    assert UserExists(store.users, "alice@x.com");
    carol := store.RegisterUser("alice@x.com", "pw", "carol@x.com");
  }

  /** A fresh store in which alice has registered and logged in with the
      password used at registration; the ids are the ones `loginUser` returned, and
      its user id is the one `registerUser` returned. */
  method AliceLoggedIn(b: Bcrypt, now: int) returns (store: Store, userId: Id, sessionId: Id)
    requires Faithful(b)
    ensures fresh(store) && store.Valid() && store.bcrypt == b
    ensures |store.users| == 1 && store.users[0].userId == userId && store.users[0].username == "alice"
    ensures store.users[0].email == "alice@x.com"
    ensures !store.users[0].deleted
    ensures |store.sessions| == 1 && store.sessions[0].userId == userId && store.sessions[0].active == None
    ensures store.tokens == []
    ensures sessionId == RowNum(1)
  {
    store := new Store(b);
    var registered := store.RegisterUser("alice", "secret123", "alice@x.com");
    ghost var salt: nat :| UserAppended([], store.users,
      User(registered.value, "alice", b.hash("secret123", salt), "alice@x.com", "{}", false));
    UserFacts.RegisterThenLogin([], store.users, store.users[0], b, "secret123", salt);
    var login := store.LoginUser("alice", "secret123", now);
    userId, sessionId := login.value.userId, login.value.sessionId;
  }

  /** The two-factor walk-through with the ids the flows return: the code is
      six digits, but the token id handed back is a row id, so checking the
      exact digits fails with TOKEN_NOTFOUND and the session stays pending. */
  method TwoFactorWalkthrough(b: Bcrypt, now: int) returns (numbers: seq<nat>, verified: Result<bool>, active: Option<int>)
    requires Faithful(b)
    ensures |numbers| == 6 && forall k :: 0 <= k < 6 ==> numbers[k] <= 9
    ensures verified == Err(TokenNotFound)
    ensures active == None
  {
    var store, userId, sessionId := AliceLoggedIn(b, now);
    var tokenId;
    tokenId, numbers := store.CreateTwoFactorCode(userId, sessionId);
    TokenFacts.ReturnedTokenIdNeverMatches(store.tokens, TokenQuery(ById(tokenId), userId, sessionId, TwoFactor));
    verified := store.AuthenticateTwoFactorCode(numbers, tokenId, userId, sessionId);
    active := store.sessions[0].active;
  }

  /** The email-login walk-through with the ids the flows return: the secret
      is stored under the row-id session id, so the lookup matches and the
      call reports success, but activating that id touches no session; the
      token is consumed, so repeating the call fails with TOKEN_NOTFOUND. */
  method EmailLoginWalkthrough(b: Bcrypt, now: int, secret: string)
    returns (first: Result<bool>, second: Result<bool>, active: Option<int>)
    requires Faithful(b)
    ensures first == Ok(true)
    ensures second == Err(TokenNotFound)
    ensures active == None
  {
    var store, userId, sessionId := AliceLoggedIn(b, now);
    var _ := store.CreateEmailLoginToken(secret, userId, sessionId);
    var q := TokenQuery(BySecret(secret), userId, sessionId, EmailLogin);
    TokenFacts.IssuedSecretIsFound([], store.tokens, EmailLogin, secret, userId, sessionId);
    ghost var tokensBefore := store.tokens;
    SessionFacts.ReturnedSessionIdNeverActivates(store.sessions, 1);
    first := store.AuthenticateLoginToken(secret, userId, sessionId);
    assert |tokensBefore| == 1;
    TokenFacts.SecretReuse(tokensBefore, q, 0);
    second := store.AuthenticateLoginToken(secret, userId, sessionId);
    active := store.sessions[0].active;
  }

  /** The password-renewal walk-through: the change succeeds and touches no
      session; afterwards alice logs in with the new password, and the old
      one is refused when no digest of the new password verifies it. */
  method PasswordRenewalWalkthrough(b: Bcrypt, now: int, secret: string)
    returns (changed: Result<()>, withNew: Result<LoginInfo>, withOld: Result<LoginInfo>, active: Option<int>)
    requires Faithful(b)
    requires forall salt: nat :: !b.compare("secret123", b.hash("correct horse", salt))
    ensures changed.Ok?
    ensures withNew.Ok? && withNew.value.username == "alice"
    ensures withOld == Err(CredentialsInvalid)
    ensures active == None
  {
    var store, userId, sessionId := AliceLoggedIn(b, now);
    var _ := store.CreatePasswordRenewalToken(secret, userId, sessionId);
    TokenFacts.IssuedSecretIsFound([], store.tokens, PasswordRenewal, secret, userId, sessionId);
    ghost var usersBefore := store.users;
    assert FindLoginUser(usersBefore, "alice") == Some(0);
    changed := store.ChangePassword("correct horse", secret, userId, sessionId);
    active := store.sessions[0].active;
    ghost var salt: nat :| store.users == PasswordSet(usersBefore, userId, b.hash("correct horse", salt));
    UserFacts.LoginAfterPasswordChange(usersBefore, "alice", 0, b, "correct horse", salt);
    withOld := store.LoginUser("alice", "secret123", now);
    withNew := store.LoginUser("alice", "correct horse", now);
  }
}
