/** `JWTBlacklistService`: revoking a stored token and asking whether a
    token was revoked. */
module JwtBlacklistService {
  import opened Entities
  import opened Repositories

  const TokenNotFoundError: Error := IllegalArgument("Token not found in the database")
  const AlreadyRevokedError: Error := IllegalState("Token is already revoked")

  /** The token table after revoking `token`, or why it cannot be revoked. */
  function Revoke(tokens: seq<Token>, token: string): (r: Result<seq<Token>>)
    ensures FindToken(tokens, token).None? ==> r == Err(TokenNotFoundError)
    ensures FindToken(tokens, token).Some? && tokens[FindToken(tokens, token).value].revoked
            ==> r == Err(AlreadyRevokedError)
    ensures FindToken(tokens, token).Some? && !tokens[FindToken(tokens, token).value].revoked ==> r.Ok?
    ensures r.Ok? ==> |r.value| == |tokens|
    ensures r.Ok? ==> FindToken(tokens, token).Some? && !tokens[FindToken(tokens, token).value].revoked
    ensures r.Ok? ==> forall j :: 0 <= j < |tokens| ==>
      r.value[j] == (if j == FindToken(tokens, token).value then tokens[j].(revoked := true) else tokens[j])
  {
    match FindToken(tokens, token)
    case None => Err(TokenNotFoundError)
    case Some(i) =>
      if tokens[i].revoked then Err(AlreadyRevokedError)
      else Ok(tokens[i := tokens[i].(revoked := true)])
  }

  /** `isTokenInvalid`: an unknown token is not invalid; a stored one is
      invalid exactly when revoked. */
  function IsTokenInvalid(tokens: seq<Token>, token: string): (r: bool)
    ensures FindToken(tokens, token).None? ==> !r
    ensures FindToken(tokens, token).Some? ==> r == tokens[FindToken(tokens, token).value].revoked
  {
    match FindToken(tokens, token)
    case None => false
    case Some(i) => tokens[i].revoked
  }

  /** `invalidateToken`: the stored token's `revoked` flag is set and saved. */
  method InvalidateToken(db: Store, token: string) returns (r: Outcome)
    requires db.Valid()
    modifies db`tokens
    ensures db.Valid()
    ensures var s := Revoke(old(db.tokens), token);
      && (s.Err? ==> r == Fail(s.error) && db.tokens == old(db.tokens))
      && (s.Ok? ==> r == Pass && db.tokens == s.value)
  {
    var found := FindToken(db.tokens, token);
    if found.None? {
      return Fail(TokenNotFoundError);
    }
    var i := found.value;
    if db.tokens[i].revoked {
      return Fail(AlreadyRevokedError);
    }
    db.SaveToken(i, db.tokens[i].(revoked := true));
    r := Pass;
  }

  /** After a revocation the token reads invalid, and revoking it again
      fails because it is already revoked. */
  lemma {:induction false} RevokeThenInvalid(tokens: seq<Token>, token: string)
    requires Revoke(tokens, token).Ok?
    ensures IsTokenInvalid(Revoke(tokens, token).value, token)
    ensures Revoke(Revoke(tokens, token).value, token) == Err(AlreadyRevokedError)
  {
    var i := FindToken(tokens, token).value;
    FindTokenIgnoresFlags(tokens, i, tokens[i].(revoked := true), token);
  }

  /** Revoking one token leaves what every other token reads as. */
  lemma {:induction false} RevokeKeepsOthers(tokens: seq<Token>, token: string, other: string)
    requires Revoke(tokens, token).Ok? && other != token
    ensures IsTokenInvalid(Revoke(tokens, token).value, other) == IsTokenInvalid(tokens, other)
  {
    var i := FindToken(tokens, token).value;
    FindTokenIgnoresFlags(tokens, i, tokens[i].(revoked := true), other);
  }
}
