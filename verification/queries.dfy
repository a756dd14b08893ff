/** The SQL the flows send, as functions over table values. Each
    `SELECT ... WHERE p LIMIT 1` is `FindFirst(table, p)`: the first row in
    row-id (insertion) order that satisfies the WHERE clause. Each
    `UPDATE ... WHERE` is a function from the old table to the new one. */
module Queries {
  import opened Records

  /** `SELECT ... WHERE p LIMIT 1`: the index of the first row satisfying `p`. */
  function FindFirst<T>(rows: seq<T>, p: T -> bool): (r: Option<nat>)
    ensures r.Some? ==> r.value < |rows| && p(rows[r.value])
    ensures r.Some? ==> forall j :: 0 <= j < r.value ==> !p(rows[j])
    ensures r.None? <==> forall j :: 0 <= j < |rows| ==> !p(rows[j])
  {
    if |rows| == 0 then None
    else if p(rows[0]) then Some(0)
    else match FindFirst(rows[1..], p)
      case None => None
      case Some(k) => Some(k + 1)
  }

  /** Inserting a row changes a lookup only if nothing matched before and the
      new row matches. */
  lemma {:induction false} FindFirstAppend<T>(rows: seq<T>, row: T, p: T -> bool)
    ensures FindFirst(rows, p).Some? ==> FindFirst(rows + [row], p) == FindFirst(rows, p)
    ensures FindFirst(rows, p).None? && p(row) ==> FindFirst(rows + [row], p) == Some(|rows|)
    ensures FindFirst(rows, p).None? && !p(row) ==> FindFirst(rows + [row], p) == None
  {
    var all := rows + [row];
    if |rows| == 0 {
      assert all == [row];
    } else {
      assert all[0] == rows[0];
      assert all[1..] == rows[1..] + [row];
      FindFirstAppend(rows[1..], row, p);
    }
  }

  // ---------------------------------------------------------------- keys

  function UserKeys(users: seq<User>): (keys: seq<Id>)
  {
    seq(|users|, i requires 0 <= i < |users| => users[i].userId)
  }

  function SessionKeys(sessions: seq<Session>): (keys: seq<Id>)
  {
    seq(|sessions|, i requires 0 <= i < |sessions| => sessions[i].sessionId)
  }

  function TokenKeys(tokens: seq<AuthToken>): (keys: seq<Id>)
  {
    seq(|tokens|, i requires 0 <= i < |tokens| => tokens[i].tokenId)
  }

  /** A number above every uuid already used as a key, so `Uuid(UuidBound(ids))`
      is a fresh key: the uuid generator's promise of a value not yet taken. */
  function UuidBound(ids: seq<Id>): (r: nat)
    ensures forall i :: 0 <= i < |ids| && ids[i].Uuid? ==> ids[i].key < r
  {
    if |ids| == 0 then 0
    else
      var rest := UuidBound(ids[1..]);
      assert forall i :: 1 <= i < |ids| ==> ids[i] == ids[1..][i - 1];
      if ids[0].Uuid? && ids[0].key >= rest then ids[0].key + 1 else rest
  }

  /** Every key is a uuid and no key repeats. */
  ghost predicate KeyColumn(ids: seq<Id>)
  {
    && (forall i :: 0 <= i < |ids| ==> ids[i].Uuid?)
    && (forall i, j :: 0 <= i < j < |ids| ==> ids[i] != ids[j])
  }

  /** What the three tables keep between calls: uuid primary keys that are
      unique, and usernames that are unique because every insert into `user`
      passes the duplicate-registration guard. */
  ghost predicate TablesValid(users: seq<User>, sessions: seq<Session>, tokens: seq<AuthToken>)
  {
    && KeyColumn(UserKeys(users))
    && KeyColumn(SessionKeys(sessions))
    && KeyColumn(TokenKeys(tokens))
    && (forall i, j :: 0 <= i < j < |users| ==> users[i].username != users[j].username)
  }

  // ---------------------------------------------------------------- inserts

  /** `INSERT INTO user (user_id, username, password, email, extra)`: exactly
      one row is added after the old ones, under a key no row had, with
      `deleted` at its default 0. */
  ghost predicate UserAppended(before: seq<User>, after: seq<User>, row: User)
  {
    && |after| == |before| + 1
    && after[..|before|] == before
    && after[|before|] == row
    && row.userId.Uuid? && row.userId !in UserKeys(before)
    && !row.deleted
  }

  /** `INSERT INTO session (session_id, user_id, active)`: one row added under
      a fresh key, `modified` stamped with the insert time, `deleted = 0`. */
  ghost predicate SessionAppended(before: seq<Session>, after: seq<Session>, userId: Id, active: Option<int>, now: int)
  {
    && |after| == |before| + 1
    && after[..|before|] == before
    && var s := after[|before|];
       && s.sessionId.Uuid? && s.sessionId !in SessionKeys(before)
       && s.userId == userId && s.active == active && s.modified == now && !s.deleted
  }

  /** `INSERT INTO auth_token (token_id, user_id, session_id, type, token)`:
      one row added under a fresh key, binding the four values, `deleted = 0`. */
  ghost predicate TokenAppended(before: seq<AuthToken>, after: seq<AuthToken>,
                                tokenType: TokenType, token: string, userId: Id, sessionId: Id)
  {
    && |after| == |before| + 1
    && after[..|before|] == before
    && var t := after[|before|];
       && t.tokenId.Uuid? && t.tokenId !in TokenKeys(before)
       && t.userId == userId && t.sessionId == sessionId
       && t.tokenType == TypeCode(tokenType) && t.token == token && !t.deleted
  }

  // ---------------------------------------------------------------- user

  /** `SELECT user_id FROM user WHERE username = ? OR email = ? LIMIT 1`, both
      placeholders bound to `name`; deleted rows are not filtered out. */
  function UserExists(users: seq<User>, name: string): (r: bool)
    ensures r <==> exists i :: 0 <= i < |users| && (users[i].username == name || users[i].email == name)
  {
    FindFirst(users, (u: User) => u.username == name || u.email == name).Some?
  }

  /** The WHERE clause of the login query. */
  predicate LoginRow(u: User, username: string)
  {
    !u.deleted && u.username == username
  }

  /** `SELECT ... FROM user WHERE deleted = 0 AND username = ? LIMIT 1`. */
  function FindLoginUser(users: seq<User>, username: string): (r: Option<nat>)
    ensures r.Some? ==> r.value < |users| && !users[r.value].deleted && users[r.value].username == username
    ensures r.Some? ==> forall j :: 0 <= j < r.value ==> users[j].deleted || users[j].username != username
    ensures r.None? <==> forall j :: 0 <= j < |users| ==> users[j].deleted || users[j].username != username
  {
    FindFirst(users, (u: User) => LoginRow(u, username))
  }

  /** `UPDATE user SET password = ? WHERE user_id = ?`: every row with that
      user_id, deleted or not, gets the new digest; nothing else changes. */
  function PasswordSet(users: seq<User>, userId: Id, digest: string): (r: seq<User>)
    ensures |r| == |users|
    ensures forall i :: 0 <= i < |r| ==>
      r[i] == if users[i].userId == userId then users[i].(password := digest) else users[i]
  {
    if |users| == 0 then []
    else
      var u := users[0];
      [if u.userId == userId then u.(password := digest) else u] + PasswordSet(users[1..], userId, digest)
  }

  /** A password update keeps every key and every username, so the table
      invariant survives it. */
  lemma PasswordSetKeepsInvariant(users: seq<User>, sessions: seq<Session>, tokens: seq<AuthToken>,
                                  userId: Id, digest: string)
    requires TablesValid(users, sessions, tokens)
    ensures TablesValid(PasswordSet(users, userId, digest), sessions, tokens)
  {
    var after := PasswordSet(users, userId, digest);
    assert forall i :: 0 <= i < |users| ==> after[i].username == users[i].username;
    assert UserKeys(after) == UserKeys(users);
  }

  // ---------------------------------------------------------------- session

  /** The row the authenticate query's join produces for a session and a user. */
  predicate Joined(s: Session, u: User, sessionId: Id)
  {
    s.sessionId == sessionId && !s.deleted && u.userId == s.userId && !u.deleted
  }

  /** The session lifetime: 24 hours in milliseconds. */
  const SESSION_TTL: int := 24 * 3_600_000

  /** What `authenticate` hands back on success. */
  datatype AuthInfo = AuthInfo(sessionId: Id, userId: Id, username: string, active: Option<int>)

  /** The live user a session's `user_id` joins to, if any. */
  function LiveUserOf(users: seq<User>, userId: Id): (j: Option<nat>)
  {
    FindFirst(users, (u: User) => u.userId == userId && !u.deleted)
  }

  /** `authenticate`: the session/user join limited to live rows, then the
      lazy expiry check against `now` (milliseconds); it writes nothing. */
  function Authenticate(users: seq<User>, sessions: seq<Session>, sessionId: Id, now: int): (r: Result<AuthInfo>)
    ensures r == Err(SessionNotFound) <==>
      forall i, j :: 0 <= i < |sessions| && 0 <= j < |users| ==> !Joined(sessions[i], users[j], sessionId)
    ensures r == Err(SessionExpired) ==>
      exists i, j :: 0 <= i < |sessions| && 0 <= j < |users| && Joined(sessions[i], users[j], sessionId)
        && now > sessions[i].modified + SESSION_TTL
    ensures r.Ok? ==>
      exists i, j :: 0 <= i < |sessions| && 0 <= j < |users| && Joined(sessions[i], users[j], sessionId)
        && now <= sessions[i].modified + SESSION_TTL
        && r.value == AuthInfo(sessionId, users[j].userId, users[j].username, sessions[i].active)
    ensures r.Err? ==> r.error == SessionNotFound || r.error == SessionExpired
  {
    match FindFirst(sessions, (s: Session) => s.sessionId == sessionId && !s.deleted && LiveUserOf(users, s.userId).Some?)
    case None =>
      assert forall i, j :: 0 <= i < |sessions| && 0 <= j < |users| && Joined(sessions[i], users[j], sessionId) ==>
        LiveUserOf(users, sessions[i].userId).Some?;
      Err(SessionNotFound)
    case Some(i) =>
      var j := LiveUserOf(users, sessions[i].userId).value;
      assert Joined(sessions[i], users[j], sessionId);
      if now > sessions[i].modified + SESSION_TTL then Err(SessionExpired)
      else Ok(AuthInfo(sessionId, users[j].userId, users[j].username, sessions[i].active))
  }

  /** `UPDATE session SET active = 1 WHERE session_id = ?`: only `active`
      changes, and only on rows with that key. */
  function Activated(sessions: seq<Session>, sessionId: Id): (r: seq<Session>)
    ensures |r| == |sessions|
    ensures forall i :: 0 <= i < |r| ==>
      r[i] == if sessions[i].sessionId == sessionId then sessions[i].(active := Some(1)) else sessions[i]
  {
    if |sessions| == 0 then []
    else
      var s := sessions[0];
      [if s.sessionId == sessionId then s.(active := Some(1)) else s] + Activated(sessions[1..], sessionId)
  }

  // ---------------------------------------------------------------- auth_token

  /** What a token lookup selects on besides the scope: the row's key
      (two-factor) or its stored secret (email login, password renewal). */
  datatype Selector = ById(tokenId: Id) | BySecret(token: string)

  /** The full WHERE clause of a token lookup. */
  datatype TokenQuery = TokenQuery(selector: Selector, userId: Id, sessionId: Id, tokenType: TokenType)

  predicate Matches(t: AuthToken, q: TokenQuery)
  {
    && !t.deleted
    && (match q.selector
        case ById(id) => t.tokenId == id
        case BySecret(secret) => t.token == secret)
    && t.userId == q.userId
    && t.sessionId == q.sessionId
    && t.tokenType == TypeCode(q.tokenType)
  }

  /** `SELECT ... FROM auth_token WHERE deleted = 0 AND (token_id | token) = ?
      AND user_id = ? AND session_id = ? AND type = ? LIMIT 1`. */
  function FindToken(tokens: seq<AuthToken>, q: TokenQuery): (r: Option<nat>)
    ensures r.Some? ==> r.value < |tokens| && Matches(tokens[r.value], q)
    ensures r.Some? ==> forall j :: 0 <= j < r.value ==> !Matches(tokens[j], q)
    ensures r.None? <==> forall j :: 0 <= j < |tokens| ==> !Matches(tokens[j], q)
  {
    FindFirst(tokens, (t: AuthToken) => Matches(t, q))
  }

  /** `UPDATE auth_token SET deleted = 1 WHERE token_id = ?`. */
  function Deactivated(tokens: seq<AuthToken>, tokenId: Id): (r: seq<AuthToken>)
    ensures |r| == |tokens|
    ensures forall i :: 0 <= i < |r| ==>
      r[i] == if tokens[i].tokenId == tokenId then tokens[i].(deleted := true) else tokens[i]
  {
    if |tokens| == 0 then []
    else
      var t := tokens[0];
      [if t.tokenId == tokenId then t.(deleted := true) else t] + Deactivated(tokens[1..], tokenId)
  }
}
