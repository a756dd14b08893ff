/** What the user table promises across calls: the duplicate guard, login
    after registration and after a password change, and soft deletion. */
module UserFacts {
  import opened Records
  import opened Queries

  /** Once a user row is inserted, its username and its email are both taken:
      a later `registerUser` whose username equals either fails. */
  lemma RegisteredNamesAreTaken(before: seq<User>, after: seq<User>, row: User)
    requires UserAppended(before, after, row)
    ensures UserExists(after, row.username) && UserExists(after, row.email)
  {
  }

  /** A user registered under a username no row had can log in with the
      password it registered: the login query finds the new row and the
      stored digest verifies that password. */
  lemma RegisterThenLogin(before: seq<User>, after: seq<User>, row: User, b: Bcrypt, password: string, salt: nat)
    requires Faithful(b)
    requires !UserExists(before, row.username)
    requires UserAppended(before, after, row)
    requires row.password == b.hash(password, salt)
    ensures FindLoginUser(after, row.username) == Some(|before|)
    ensures b.compare(password, after[|before|].password)
  {
  }

  /** After `changePassword` rewrites the password of the user the login
      query finds, the same username finds the same row, which now stores
      the new digest, and the new password verifies against it; whether the
      old one still does is bcrypt's verdict on that digest alone. */
  lemma LoginAfterPasswordChange(users: seq<User>, username: string, i: nat, b: Bcrypt,
                                 newPassword: string, salt: nat)
    requires Faithful(b)
    requires FindLoginUser(users, username) == Some(i)
    ensures var after := PasswordSet(users, users[i].userId, b.hash(newPassword, salt));
      && FindLoginUser(after, username) == Some(i)
      && b.compare(newPassword, after[i].password)
      && after[i].password == b.hash(newPassword, salt)
  {
    var digest := b.hash(newPassword, salt);
    var after := PasswordSet(users, users[i].userId, digest);
    assert forall k :: 0 <= k < |users| ==> LoginRow(after[k], username) == LoginRow(users[k], username);
    var found := FindLoginUser(after, username);
    assert LoginRow(after[i], username);
    assert found.Some?;
    assert found.value == i;
    assert after[i].password == digest;
    assert b.compare(newPassword, digest);
  }

  /** A soft-deleted user still holds its username against re-registration,
      yet can no longer log in under it. */
  lemma SoftDeletedNameStaysTaken(users: seq<User>, i: nat)
    requires forall a, c :: 0 <= a < c < |users| ==> users[a].username != users[c].username
    requires i < |users| && users[i].deleted
    ensures UserExists(users, users[i].username)
    ensures FindLoginUser(users, users[i].username) == None
  {
  }
}
