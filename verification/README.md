# viixet-authn: the authentication state machine in Dafny

This project models the core of viixet-authn, a credential and session
service. Users register with a username, a password and an email. Logging in
creates a pending session. Single-use auth tokens (two-factor codes,
email-login links and password-renewal secrets), which never expire until
they are consumed, complete a flow:
they activate the session or change the password. `authenticate` checks on
every call whether a session is still live and not expired.

The SQLite database becomes one object, `AuthStore.Store`. It holds three
tables as sequences of rows, in row-id order: `users`, `sessions` and
`tokens` (the `auth_token` table). The columns and defaults come from
`db/createDB.js`. Rows are never removed, only flagged `deleted`.

- Each `SELECT … WHERE … LIMIT 1` is `Queries.FindFirst`: the first row, in
  row-id order, that satisfies the WHERE clause.
- Each `UPDATE … WHERE` is a function from the old table to the new one:
  `Deactivated`, `Activated` and `PasswordSet`.
- Each exported function of `src/session.js`, `src/token.js` and
  `src/user.js` is a method of the store. The methods run the same guarded
  lookups and the same writes, in the same order, as the source.
- `userExists` and `authenticate` only read, so they are the functions
  `Queries.UserExists` and `Queries.Authenticate` over the tables.

External pieces are parameters or nondeterministic choices:

- bcrypt is a pair of function values, `Records.Bcrypt`. It has a salted
  `hash` and a `compare`. Every member assumes `Records.Faithful`: a digest
  verifies its own plaintext. `Scenarios.PasswordRenewalWalkthrough`
  assumes one thing more: bcrypt does not verify `secret123` against any
  digest of `correct horse`. Nothing stronger holds in general, because
  bcrypt hashes only the first 72 bytes of its input.
- Each salt is an arbitrary natural number.
- `uuidv4()` is a choice of a key that the table does not already hold.
- `Math.random()` is an arbitrary real number in [0, 1).
- `Date.now()` and the session's `modified` timestamp are integers in
  milliseconds, passed in as `now`.

Two behaviours of the code are modelled as written:

- **The ids handed back are row ids.** `createSession` and
  `createAuthToken` return the driver's last-insert row id, not the uuid
  they stored as the key (`db/transaction.js:26`). The rows are never
  deleted, so that row id is the new row's 1-based position. An `Id` is
  either `Uuid(n)` or `RowNum(n)`. A uuid's text is never a decimal
  numeral, so under the TEXT column affinity the two never compare equal.
  The consequences are proved:
  - `authenticate` on the session id from `loginUser` always fails with
    SESSION_NOTFOUND.
  - `authenticateTwoFactorCode` with the token id from
    `createTwoFactorCode` always fails with TOKEN_NOTFOUND.
  - `authenticateLoginToken` with the row-id session id reports success
    but activates no session.

  The `Scenarios` methods call these flows in sequence, and their contracts
  state the outcomes.
- **Only the username is checked for duplicates.** `registerUser` passes
  the username, and not the email, to `userExists`. `userExists` matches
  the username against both the `username` and the `email` columns, and
  it ignores the `deleted` flag.

Two more facts of the code that the model keeps:

- A new user may reuse another user's email. Only the username is
  checked, against both the `username` and the `email` columns
  (`Scenarios.RegistrationWalkthrough`).
- `loginUser` calls `createSession(user_id)` with `active` undefined. The
  column therefore holds NULL (`None`), not the default 0
  (`Scenarios.AliceLoggedIn`).

## Model

| member | source | states |
|---|---|---|
| Records.TypeCode | src/token.js:7-11 | each flow's `type` code lies in 1..3 |
| Records.TypeCodesDistinct | src/token.js:7-11 | twoFactor, passwordRenewal and emailLogin have pairwise different codes, so a lookup that fixes one code never returns another flow's row |
| Records.Decimal | src/token.js:55 | the text JavaScript gives each number below 10^21 inside `numbers.join('-')`: at least one character, digits only, no leading zero |
| Records.DecimalRoundTrip | src/token.js:55 | reading the decimal text of a number back gives that number, so the text of each number determines it |
| Records.Join | src/token.js:55 | `numbers.join('-')` for numbers below 10^21, the text hashed at line 55 and compared at line 85: empty iff there are no numbers, only digits and dashes, and a dash iff there are two or more numbers |
| Records.JoinInjective | src/token.js:85 | two different sequences of numbers, digits or not, never have the same `'-'` join, so the text compared at line 85 determines the numbers the caller passed |
| Queries.FindFirst | src/token.js:63-71 | `LIMIT 1` returns the first row satisfying the WHERE clause, and returns nothing only when no row satisfies it |
| Queries.FindFirstAppend | src/token.js:14-28 | an INSERT (here `createAuthToken`'s; likewise src/session.js:5-9 and src/user.js:21-34) followed by a `LIMIT 1` scan in row-id order: inserting a row changes a lookup only when nothing matched before and the new row matches; it is then found at the new position |
| Queries.UuidBound | src/session.js:9 | yields a uuid no row of the table holds, so a fresh key always exists |
| Queries.UserExists | src/user.js:7-12 | true iff some row, deleted or not, has that text as its username or as its email |
| Queries.FindLoginUser | src/user.js:44-47 | finds the first non-deleted row with that username; it finds nothing iff every row with that username is deleted |
| Queries.PasswordSet | src/token.js:178-187 | every row with that user_id, deleted or not, gets the new digest; all other columns and rows are unchanged |
| Queries.PasswordSetKeepsInvariant | src/token.js:178-187 | setting a password keeps the table invariant: user keys stay uuids and distinct, usernames stay distinct |
| Queries.Authenticate | src/user.js:60-79 | SESSION_NOTFOUND iff no non-deleted session with that id joins a non-deleted user. SESSION_EXPIRED only for a joined session with now > modified + 86 400 000. Otherwise it returns the caller's session id and that user's id, username and the session's `active` |
| Queries.Activated | src/session.js:13-16 | only `active` changes, set to 1, and only on rows with that session_id; `deleted` and `modified` are kept |
| Queries.FindToken | src/token.js:63-82 | a returned row is live and matches the selector, user_id, session_id and type code; nothing is returned iff no live row matches all four |
| Queries.Deactivated | src/token.js:32-41 | exactly the rows with that token_id get `deleted = 1`; every other row and column is unchanged |
| AuthStore.GenerateRandomNumbers | src/token.js:43-51 | returns six numbers, each in 0..9 |
| AuthStore.Store.constructor | db/createDB.js:13-47 | a new store has three empty tables |
| AuthStore.Store.CreateSession | src/session.js:4-11 | appends one session row under a fresh uuid, with the given user_id, `active` and insert time, and `deleted = 0`; other tables are unchanged; returns the new row id |
| AuthStore.Store.ActivateSession | src/session.js:13-22 | the session table becomes `Activated` of the old one; the other tables are unchanged; the table invariant is kept |
| AuthStore.Store.CreateAuthToken | src/token.js:13-30 | appends one token row under a fresh uuid binding the type code, token, user_id and session_id, with `deleted = 0`; existing rows are unchanged; returns the new row id |
| AuthStore.Store.DeactivateAuthToken | src/token.js:32-41 | the token table becomes `Deactivated` of the old one; the other tables are unchanged |
| AuthStore.Store.CreateTwoFactorCode | src/token.js:53-60 | returns six digits and stores a two-factor row whose token is a salted hash of their `'-'` join, which verifies them; returns the row id |
| AuthStore.Store.AuthenticateTwoFactorCode | src/token.js:62-93 | TOKEN_NOTFOUND when no live row matches token_id, user, session and type 1; TOKEN_INVALID when the joined digits fail the compare. Either failure writes nothing. On success the token is deactivated, the session activated and users unchanged |
| AuthStore.Store.CreateEmailLoginToken | src/token.js:95-104 | stores the secret unhashed as an emailLogin row bound to user and session; returns the row id |
| AuthStore.Store.AuthenticateLoginToken | src/token.js:106-136 | TOKEN_NOTFOUND, writing nothing, iff no live emailLogin row matches the secret, user and session. Otherwise the matched row's token_id is deactivated and the session activated |
| AuthStore.Store.CreatePasswordRenewalToken | src/token.js:138-147 | stores the secret unhashed as a passwordRenewal row bound to user and session; returns the row id |
| AuthStore.Store.ChangePassword | src/token.js:149-190 | TOKEN_NOTFOUND, writing nothing, iff no live passwordRenewal row matches. Otherwise the matched token is deactivated and that user_id's password becomes a salted hash of the new one. The session table is never changed |
| AuthStore.Store.RegisterUser | src/user.js:14-41 | USER_ALREADYEXISTS with no write iff the username is taken as a username or an email. Otherwise it appends one row under a fresh uuid with the hashed password, the email and `extra = '{}'`, and returns that uuid. Afterwards the username is always taken |
| AuthStore.Store.LoginUser | src/user.js:43-58 | USER_NOTFOUND when no live user has the username; CREDENTIALS_INVALID when the compare fails. Neither writes. Otherwise it appends one session for that user with `active` NULL and returns the row id, user_id and username |
| TokenFacts.DeactivatedIdempotent | src/token.js:32-41 | deactivating the same token_id twice leaves the table as deactivating it once |
| TokenFacts.DeactivateUnknownIsNoop | src/token.js:32-41 | deactivating a token_id no row has leaves the table unchanged |
| TokenFacts.ConsumedTokenNeverMatches | src/token.js:89 | once a token_id is deactivated, no lookup by that id matches again, so a repeated two-factor check fails with TOKEN_NOTFOUND |
| TokenFacts.SecretReuse | src/token.js:128-132 | after a secret flow consumes its matched row, the same call fails iff every live row matching that secret, user, session and type shared the consumed token_id |
| TokenFacts.IssuedTokenStaysInScope | src/token.js:13-30 | issuing a token changes no lookup for a different flow, user or session, so a token bound to session A is never found with session B's id |
| TokenFacts.TwoFactorKeyRoundTrip | src/token.js:53-60 | looked up by its stored uuid, a freshly issued two-factor row is found, and its digest verifies the joined digits |
| TokenFacts.ReturnedTokenIdNeverMatches | src/token.js:19-29 | no token key is a row id, so a lookup by the id `createAuthToken` returns never matches |
| TokenFacts.IssuedSecretIsFound | src/token.js:95-104 | after an email-login or renewal secret is issued, its own scoped lookup finds a row |
| SessionFacts.ActivatedIdempotent | src/session.js:13-16 | activating the same session_id twice is activating it once |
| SessionFacts.ActivateUnknownIsNoop | src/session.js:13-16 | activating a session_id no row has leaves the table unchanged |
| SessionFacts.ExpiryBoundary | src/user.js:73-78 | with unique keys, a joined live session is SESSION_EXPIRED iff now > modified + 24 h. It authenticates iff now <= modified + 24 h, including the boundary itself, and then reports its own `active` |
| SessionFacts.ActivationKeepsReachability | src/session.js:13-16 | activation never changes whether a session is SESSION_NOTFOUND or SESSION_EXPIRED, so a deleted session stays unreachable |
| SessionFacts.ReturnedSessionIdNeverAuthenticates | src/session.js:9-10 | no session key is a row id, so `authenticate` on the id `createSession` returns is always SESSION_NOTFOUND |
| SessionFacts.ReturnedSessionIdNeverActivates | src/session.js:9-10 | for the same reason, activating that id changes no session |
| SessionFacts.FreshSessionLifetime | src/session.js:4-10 | a new session of a live user, addressed by its uuid, authenticates with that user and its initial `active` until 24 h after insertion, and is SESSION_EXPIRED afterwards |
| UserFacts.RegisteredNamesAreTaken | src/user.js:14-17 | after a user row is inserted, both its username and its email block a later registration under that name |
| UserFacts.RegisterThenLogin | src/user.js:19-57 | a user registered under a new username is found by the login query, and the stored digest verifies the registered password |
| UserFacts.LoginAfterPasswordChange | src/token.js:178-187 | after the password change, the login query finds the same row, that row stores the digest of the new password, and the new password verifies against it |
| UserFacts.SoftDeletedNameStaysTaken | src/user.js:8 | a soft-deleted user still blocks its username for registration but can no longer log in with it |
| Scenarios.RegistrationWalkthrough | src/user.js:14-58 | after register and login the returned session id is RowNum(1), on which `authenticate` gives SESSION_NOTFOUND; a second user may reuse the first user's email and gets a different user id, but the first user's email as a username is refused |
| Scenarios.AliceLoggedIn | src/user.js:43-58 | login with the registered password succeeds and returns the registered user id; afterwards there is one live user with the registered username and email and one session with `active` NULL, and the returned session id is RowNum(1) |
| Scenarios.TwoFactorWalkthrough | src/token.js:53-93 | with the ids the flows return, the exact six digits fail with TOKEN_NOTFOUND and the session stays pending |
| Scenarios.EmailLoginWalkthrough | src/token.js:95-136 | with the ids the flows return, the first check reports success and a repeat fails with TOKEN_NOTFOUND, yet the session's `active` stays NULL |
| Scenarios.PasswordRenewalWalkthrough | src/token.js:138-190 | the password change succeeds and leaves the session pending. Login then accepts the new password and, given that bcrypt does not verify `secret123` against a digest of `correct horse`, refuses the old one with CREDENTIALS_INVALID |

## Left out

- Queries.Authenticate: its contract names some joined session/user pair rather than the first row SQLite returns. `SessionFacts.ExpiryBoundary` shows the two coincide when session keys are unique, which the store keeps.
- `db/transaction.js`: the per-call connection, the callback plumbing and the SELECT/run classification are not modelled. The store never fails, so storage errors are not represented.
- `db/createDB.js`: schema creation and file I/O are not modelled. Only its columns and defaults are used. The `created` columns and the `modified` columns of `user` and `auth_token` are never read by the core, so they are not kept.
- `src/index.js` (re-exports) is not modelled. `src/errors.js` is not part of this model. Its error names are the `Records.Error` datatype.
- The `!token_id` checks (src/token.js:130, 174) and the `!id` check (src/user.js:36) have no branch in the model. A matched `token_id` is a non-empty uuid, and a successful INSERT's last row id is at least 1. So TOKEN_INVALID never comes from the secret flows, and USER_NEW_FAILED is never raised.
- The values returned by UPDATE statements are unspecified by the driver. `ActivateSession` and `DeactivateAuthToken` return nothing, and `ChangePassword` returns `Ok(())`.
- bcrypt's cost factor (10), its salt format and its input truncation are not modelled; hashing is uninterpreted apart from `Faithful`.
- The FOREIGN KEY clauses of `db/createDB.js` (lines 32, 44-45) are not enforced: SQLite leaves them off unless a connection turns them on, and `db/transaction.js` does not. The model accepts any `user_id` and `session_id` in a new row. `Scenarios.EmailLoginWalkthrough` depends on this: its token row names the session `RowNum(1)`, which no session has.
- `modified` defaults to `CURRENT_TIMESTAMP`, which has one-second resolution. `AuthStore.Store.CreateSession` stamps the exact `now` instead. So `SessionFacts.FreshSessionLifetime`'s 24-hour window ignores the truncation to the second.
- `uuidv4()` keys are distinct across all three tables. `AuthStore.Store.CreateSession`, `AuthStore.Store.CreateAuthToken` and `AuthStore.Store.RegisterUser` only draw a key fresh within their own table. In the model, a user or token key passed as a `session_id` can therefore hit a session; in the source it never can.
- Records.Decimal, Records.Join: caller-supplied codes are unbounded naturals printed in full digits. JavaScript numbers are doubles: they hold integers exactly only up to 2^53, and from 10^21 up they are printed in exponent form (`1e+21`), which has an `e` and a `+`. The exponent form of a non-negative number has no `-` either, so a join still splits uniquely at its dashes.
- Floating point is not modelled: `Math.random()` is a mathematical real in [0, 1).
- `new Date(modified)` parses SQLite's timestamp text in local time. This is not modelled; `modified` and `now` are integer milliseconds.
- async/await ordering and concurrent calls are not modelled. In particular, the race between two simultaneous registrations of one username is out of scope: every call runs to completion alone.
- Caller-supplied values are typed: identifiers are `Id`, codes are sequences of naturals, and names and secrets are strings. JavaScript's loose typing of arguments is not modelled.
