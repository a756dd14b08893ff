/** The rows of the three SQLite tables (db/createDB.js), the error names the
    flows raise, the token type codes, and the opaque password-hash primitive. */
module Records {

  /** A value of an identifier column. The tables' keys are uuid strings; the
      ids the insert helpers hand back are the driver's last-insert row ids.
      A uuid's text is never a decimal numeral, so under SQLite's TEXT column
      affinity a key never compares equal to a row id: the two constructors. */
  datatype Id = Uuid(key: nat) | RowNum(row: nat)

  datatype Option<T> = None | Some(value: T)

  /** The error names thrown by the flows. */
  datatype Error =
    | UserAlreadyExists
    | UserNewFailed
    | UserNotFound
    | CredentialsInvalid
    | SessionNotFound
    | SessionExpired
    | TokenNotFound
    | TokenInvalid

  datatype Result<T> = Ok(value: T) | Err(error: Error)

  /** A row of `user`. `created`/`modified` are never read and are not kept. */
  datatype User = User(
    userId: Id,
    username: string,
    password: string,
    email: string,
    extra: string,
    deleted: bool)

  /** A row of `session`. `modified` is in milliseconds; `active` is an INT
      column that may hold NULL (None). */
  datatype Session = Session(
    sessionId: Id,
    userId: Id,
    modified: int,
    active: Option<int>,
    deleted: bool)

  /** A row of `auth_token`; `tokenType` is the INT `type` column. */
  datatype AuthToken = AuthToken(
    tokenId: Id,
    userId: Id,
    sessionId: Id,
    token: string,
    tokenType: int,
    deleted: bool)

  /** The three token flows of `AUTH_TOKEN_TYPE`. */
  datatype TokenType = TwoFactor | PasswordRenewal | EmailLogin

  /** The integer stored in the `type` column for each flow. */
  function TypeCode(t: TokenType): (c: int)
    ensures 1 <= c <= 3
  {
    match t
    case TwoFactor => 1
    case PasswordRenewal => 2
    case EmailLogin => 3
  }

  /** No two flows share a code, so a lookup that fixes one flow's code never
      returns another flow's row. */
  lemma TypeCodesDistinct(t: TokenType, u: TokenType)
    ensures TypeCode(t) == TypeCode(u) <==> t == u
  {
  }

  /** The salted one-way hash and its compare, left uninterpreted: any pair of
      functions may be supplied. `hash(plain, salt)` is the digest stored. */
  datatype Bcrypt = Bcrypt(
    hash: (string, nat) -> string,
    compare: (string, string) -> bool)

  /** The one promise the flows rely on: a digest verifies its own plaintext,
      whatever salt was drawn. */
  ghost predicate Faithful(b: Bcrypt)
  {
    forall plain: string, salt: nat :: b.compare(plain, b.hash(plain, salt))
  }

  /** The decimal text of a number, as JavaScript prints a non-negative
      integer below 10^21: digits only, and no leading zero. */
  function Decimal(n: nat): (s: string)
    ensures |s| >= 1
    ensures forall k :: 0 <= k < |s| ==> '0' <= s[k] <= '9'
    ensures s[0] == '0' ==> n == 0
    decreases n
  {
    if n < 10 then [('0' as int + n) as char]
    else Decimal(n / 10) + [('0' as int + n % 10) as char]
  }

  /** The number a text of decimal digits denotes. */
  function DigitsValue(s: string): (n: nat)
    requires forall k :: 0 <= k < |s| ==> '0' <= s[k] <= '9'
  {
    if |s| == 0 then 0
    else 10 * DigitsValue(s[..|s| - 1]) + (s[|s| - 1] as int - '0' as int)
  }

  /** Reading back the decimal text of a number gives that number. */
  lemma {:induction false} DecimalRoundTrip(n: nat)
    ensures DigitsValue(Decimal(n)) == n
    decreases n
  {
    if n >= 10 {
      var s := Decimal(n);
      assert s[..|s| - 1] == Decimal(n / 10);
      DecimalRoundTrip(n / 10);
    }
  }

  /** `numbers.join('-')` for numbers below 10^21: empty exactly for no numbers, digits and dashes
      only, and a dash exactly when there are at least two numbers. */
  function Join(numbers: seq<nat>): (s: string)
    ensures |s| == 0 <==> |numbers| == 0
    ensures forall k :: 0 <= k < |s| ==> s[k] == '-' || '0' <= s[k] <= '9'
    ensures '-' in s <==> |numbers| > 1
  {
    if |numbers| == 0 then ""
    else if |numbers| == 1 then Decimal(numbers[0])
    else Decimal(numbers[0]) + "-" + Join(numbers[1..])
  }

  /** The longest prefix of `s` without a dash. */
  function DashFreePrefix(s: string): (r: string)
    ensures |r| <= |s| && r == s[..|r|]
  {
    if |s| == 0 || s[0] == '-' then "" else [s[0]] + DashFreePrefix(s[1..])
  }

  lemma {:induction false} DashFreePrefixOf(d: string, rest: string)
    requires forall k :: 0 <= k < |d| ==> d[k] != '-'
    requires |rest| == 0 || rest[0] == '-'
    ensures DashFreePrefix(d + rest) == d
  {
    if |d| == 0 {
      assert d + rest == rest;
    } else {
      assert (d + rest)[0] == d[0];
      assert (d + rest)[1..] == d[1..] + rest;
      DashFreePrefixOf(d[1..], rest);
    }
  }

  /** A join starts with the first number's text, up to the first dash,
      and the rest of it after that dash is the join of the other numbers. */
  lemma JoinHead(numbers: seq<nat>)
    requires |numbers| > 0
    ensures DashFreePrefix(Join(numbers)) == Decimal(numbers[0])
    ensures |numbers| > 1 ==>
      Join(numbers)[|Decimal(numbers[0])| + 1..] == Join(numbers[1..])
  {
    var d := Decimal(numbers[0]);
    if |numbers| == 1 {
      assert d + "" == d;
      DashFreePrefixOf(d, "");
    } else {
      var rest := "-" + Join(numbers[1..]);
      assert Join(numbers) == d + rest;
      DashFreePrefixOf(d, rest);
    }
  }

  /** Two different sequences of numbers never join to the same text, so a
      two-factor code is recovered exactly from its joined form, whatever
      numbers the caller passes. */
  lemma {:induction false} JoinInjective(a: seq<nat>, b: seq<nat>)
    requires Join(a) == Join(b)
    ensures a == b
  {
    if |a| > 0 && |b| > 0 {
      JoinHead(a);
      JoinHead(b);
      DecimalRoundTrip(a[0]);
      DecimalRoundTrip(b[0]);
      assert a[0] == b[0];
      if |a| > 1 {
        assert |b| > 1;
        JoinInjective(a[1..], b[1..]);
        assert a == [a[0]] + a[1..];
        assert b == [b[0]] + b[1..];
      }
    }
  }
}
