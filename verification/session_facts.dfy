/** What the session table promises across calls: activation is idempotent
    and never revives a deleted session, expiry is decided by one comparison,
    and the ids `createSession` hands back reach no session. */
module SessionFacts {
  import opened Records
  import opened Queries

  /** Activating twice is activating once. */
  lemma ActivatedIdempotent(sessions: seq<Session>, sessionId: Id)
    ensures Activated(Activated(sessions, sessionId), sessionId) == Activated(sessions, sessionId)
  {
  }

  /** Activating a session_id no row has writes nothing. */
  lemma ActivateUnknownIsNoop(sessions: seq<Session>, sessionId: Id)
    requires forall i :: 0 <= i < |sessions| ==> sessions[i].sessionId != sessionId
    ensures Activated(sessions, sessionId) == sessions
  {
  }

  /** With unique session keys, a session that joins a live user is expired
      exactly when `now` is past `modified + 24h`; at the boundary itself it
      still authenticates, and it reports its own `active` column. */
  lemma ExpiryBoundary(users: seq<User>, sessions: seq<Session>, sessionId: Id, now: int, i: nat, j: nat)
    requires KeyColumn(SessionKeys(sessions))
    requires i < |sessions| && j < |users| && Joined(sessions[i], users[j], sessionId)
    ensures Authenticate(users, sessions, sessionId, now) == Err(SessionExpired) <==>
      now > sessions[i].modified + SESSION_TTL
    ensures Authenticate(users, sessions, sessionId, now).Ok? <==>
      now <= sessions[i].modified + SESSION_TTL
    ensures Authenticate(users, sessions, sessionId, now).Ok? ==>
      Authenticate(users, sessions, sessionId, now).value.active == sessions[i].active
  {
    var keys := SessionKeys(sessions);
    assert forall k :: 0 <= k < |sessions| ==> keys[k] == sessions[k].sessionId;
    assert forall k :: 0 <= k < |sessions| && sessions[k].sessionId == sessionId ==> k == i;
  }

  /** Activation changes which sessions authenticate in no way: a missing or
      deleted session (or one whose user is deleted) stays SESSION_NOTFOUND,
      and an expired one stays expired. */
  lemma ActivationKeepsReachability(users: seq<User>, sessions: seq<Session>, target: Id, sessionId: Id, now: int)
    requires KeyColumn(SessionKeys(sessions))
    ensures var after := Activated(sessions, target);
      && (Authenticate(users, after, sessionId, now) == Err(SessionNotFound) <==>
          Authenticate(users, sessions, sessionId, now) == Err(SessionNotFound))
      && (Authenticate(users, after, sessionId, now) == Err(SessionExpired) <==>
          Authenticate(users, sessions, sessionId, now) == Err(SessionExpired))
  {
    var after := Activated(sessions, target);
    assert forall k :: 0 <= k < |sessions| ==>
      after[k].sessionId == sessions[k].sessionId && after[k].deleted == sessions[k].deleted
      && after[k].userId == sessions[k].userId && after[k].modified == sessions[k].modified;
    assert SessionKeys(after) == SessionKeys(sessions);
    assert forall k, j :: 0 <= k < |sessions| && 0 <= j < |users| ==>
      (Joined(after[k], users[j], sessionId) <==> Joined(sessions[k], users[j], sessionId));
    if exists k, j :: 0 <= k < |sessions| && 0 <= j < |users| && Joined(sessions[k], users[j], sessionId) {
      var k, j :| 0 <= k < |sessions| && 0 <= j < |users| && Joined(sessions[k], users[j], sessionId);
      ExpiryBoundary(users, sessions, sessionId, now, k, j);
      ExpiryBoundary(users, after, sessionId, now, k, j);
    }
  }

  /** The id `createSession` (and so `loginUser`) hands back is a row id, and
      no session key is a row id: `authenticate` on it always fails with
      SESSION_NOTFOUND. */
  lemma ReturnedSessionIdNeverAuthenticates(users: seq<User>, sessions: seq<Session>, row: nat, now: int)
    requires KeyColumn(SessionKeys(sessions))
    ensures Authenticate(users, sessions, RowNum(row), now) == Err(SessionNotFound)
  {
    var keys := SessionKeys(sessions);
    assert forall k :: 0 <= k < |sessions| ==> keys[k] == sessions[k].sessionId;
  }

  /** For the same reason `activateSession` on such an id activates nothing:
      a token flow given the id `loginUser` returned leaves every session as
      it was. */
  lemma ReturnedSessionIdNeverActivates(sessions: seq<Session>, row: nat)
    requires KeyColumn(SessionKeys(sessions))
    ensures Activated(sessions, RowNum(row)) == sessions
  {
    var keys := SessionKeys(sessions);
    assert forall k :: 0 <= k < |sessions| ==> keys[k] == sessions[k].sessionId;
    ActivateUnknownIsNoop(sessions, RowNum(row));
  }

  /** A session just inserted for a live user, addressed by the uuid it was
      stored under, authenticates for 24 hours from its insert time,
      reporting that user and the `active` value it was created with; after
      that it is expired. */
  lemma FreshSessionLifetime(users: seq<User>, before: seq<Session>, after: seq<Session>,
                             j: nat, active: Option<int>, created: int, now: int)
    requires KeyColumn(SessionKeys(before)) && KeyColumn(UserKeys(users))
    requires j < |users| && !users[j].deleted
    requires SessionAppended(before, after, users[j].userId, active, created)
    ensures var r := Authenticate(users, after, after[|before|].sessionId, now);
      && (now <= created + SESSION_TTL ==>
            r == Ok(AuthInfo(after[|before|].sessionId, users[j].userId, users[j].username, active)))
      && (now > created + SESSION_TTL ==> r == Err(SessionExpired))
  {
    var i := |before|;
    var s := after[i];
    assert after == before + [s];
    var keys := SessionKeys(after);
    assert keys == SessionKeys(before) + [s.sessionId];
    assert KeyColumn(keys);
    var ukeys := UserKeys(users);
    assert forall k :: 0 <= k < |users| ==> ukeys[k] == users[k].userId;
    assert forall k :: 0 <= k < |users| && users[k].userId == users[j].userId ==> k == j;
    assert Joined(after[i], users[j], s.sessionId);
    ExpiryBoundary(users, after, s.sessionId, now, i, j);
    var r := Authenticate(users, after, s.sessionId, now);
    if r.Ok? {
      var i', j' :| 0 <= i' < |after| && 0 <= j' < |users| && Joined(after[i'], users[j'], s.sessionId)
        && r.value == AuthInfo(s.sessionId, users[j'].userId, users[j'].username, after[i'].active);
      assert keys[i'] == after[i'].sessionId;
      assert i' == i;
      assert j' == j;
    }
  }
}
