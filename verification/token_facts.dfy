/** What the auth_token table promises across calls: scoped lookups,
    single use, and what the ids handed back by the create flows can reach. */
module TokenFacts {
  import opened Records
  import opened Queries

  /** Deactivating twice is deactivating once. */
  lemma DeactivatedIdempotent(tokens: seq<AuthToken>, tokenId: Id)
    ensures Deactivated(Deactivated(tokens, tokenId), tokenId) == Deactivated(tokens, tokenId)
  {
  }

  /** Deactivating a token_id no row has writes nothing. */
  lemma DeactivateUnknownIsNoop(tokens: seq<AuthToken>, tokenId: Id)
    requires forall i :: 0 <= i < |tokens| ==> tokens[i].tokenId != tokenId
    ensures Deactivated(tokens, tokenId) == tokens
  {
  }

  /** Single use by key: once a token_id is deactivated, no lookup by that
      token_id matches again, in any scope and for any flow. */
  lemma ConsumedTokenNeverMatches(tokens: seq<AuthToken>, q: TokenQuery)
    requires q.selector.ById?
    ensures FindToken(Deactivated(tokens, q.selector.tokenId), q) == None
  {
  }

  /** Every live row the query could match carries `tokenId`. */
  predicate OnlyKeyMatches(tokens: seq<AuthToken>, q: TokenQuery, tokenId: Id)
  {
    forall j :: 0 <= j < |tokens| && Matches(tokens[j], q) ==> tokens[j].tokenId == tokenId
  }

  /** Single use by secret: after the matched row's token_id is deactivated,
      the same secret lookup fails exactly when every live row it could match
      carried that token_id, i.e. when no second row was issued with the same
      secret for the same user, session and flow. */
  lemma SecretReuse(tokens: seq<AuthToken>, q: TokenQuery, i: nat)
    requires q.selector.BySecret?
    requires FindToken(tokens, q) == Some(i)
    ensures FindToken(Deactivated(tokens, tokens[i].tokenId), q) == None <==>
      OnlyKeyMatches(tokens, q, tokens[i].tokenId)
  {
  }

  /** Issuing a token changes no lookup outside its own flow, user and
      session: a token bound to another session, another user or another
      flow's type code is never found by this query. */
  lemma IssuedTokenStaysInScope(before: seq<AuthToken>, after: seq<AuthToken>,
                                tokenType: TokenType, token: string, userId: Id, sessionId: Id, q: TokenQuery)
    requires TokenAppended(before, after, tokenType, token, userId, sessionId)
    requires q.tokenType != tokenType || q.userId != userId || q.sessionId != sessionId
    ensures FindToken(after, q) == FindToken(before, q)
  {
  }

  /** A freshly issued two-factor token, looked up under the uuid it was
      stored with, is found and its digest verifies the joined digits. */
  lemma TwoFactorKeyRoundTrip(before: seq<AuthToken>, after: seq<AuthToken>, b: Bcrypt,
                              numbers: seq<nat>, salt: nat, userId: Id, sessionId: Id)
    requires Faithful(b)
    requires TokenAppended(before, after, TwoFactor, b.hash(Join(numbers), salt), userId, sessionId)
    ensures var q := TokenQuery(ById(after[|before|].tokenId), userId, sessionId, TwoFactor);
      FindToken(after, q) == Some(|before|) && b.compare(Join(numbers), after[|before|].token)
  {
    var row := after[|before|];
    var q := TokenQuery(ById(row.tokenId), userId, sessionId, TwoFactor);
    assert after == before + [row];
    forall j | 0 <= j < |before|
      ensures !Matches(before[j], q)
    {
      assert TokenKeys(before)[j] == before[j].tokenId;
    }
    FindFirstAppend(before, row, (t: AuthToken) => Matches(t, q));
  }

  /** The id `createTwoFactorCode` hands back is a row id, and no token key is
      a row id: the lookup by that id never matches, so authenticating with
      it always fails with TOKEN_NOTFOUND. */
  lemma ReturnedTokenIdNeverMatches(tokens: seq<AuthToken>, q: TokenQuery)
    requires KeyColumn(TokenKeys(tokens))
    requires q.selector.ById? && q.selector.tokenId.RowNum?
    ensures FindToken(tokens, q) == None
  {
    forall j | 0 <= j < |tokens|
      ensures !Matches(tokens[j], q)
    {
      assert TokenKeys(tokens)[j] == tokens[j].tokenId;
    }
  }

  /** An email-login or renewal secret, once issued, is found by its own
      scoped lookup (possibly at an earlier row issued with the same secret). */
  lemma IssuedSecretIsFound(before: seq<AuthToken>, after: seq<AuthToken>,
                            tokenType: TokenType, token: string, userId: Id, sessionId: Id)
    requires TokenAppended(before, after, tokenType, token, userId, sessionId)
    ensures FindToken(after, TokenQuery(BySecret(token), userId, sessionId, tokenType)).Some?
  {
  }
}
