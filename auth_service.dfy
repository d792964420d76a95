/** `AuthService`: login stores a fresh, live token for the user; logout
    revokes it. Checking a password and building a JWT are done by library
    code and enter the model as the function parameters `authenticate` and
    `generateToken`. */
module AuthService {
  import opened Entities
  import opened Repositories
  import JwtBlacklistService

  const MillisPerMinute: int := 60000

  const BadCredentialsError: Error := InvalidCredentials("Bad credentials")
  /** `saveToken`'s own lookup of the user. */
  const TokenOwnerNotFoundError: Error := IllegalArgument("User not found")
  /** The unique token column refusing a token string already stored. */
  const DuplicateTokenError: Error := DataIntegrityViolation("Duplicate entry for token")

  function UserNotFoundFor(email: string): Error
  {
    UserNotFound("User not found for the given identifier: " + email)
  }

  /** The token `saveToken` builds: live, not expired, owned by `email`, and
      expiring `jwtExpiration` minutes after it was created. */
  function NewToken(token: string, email: string, now: int, jwtExpiration: int): (t: Token)
    ensures t.token == token && t.user == email
    ensures !t.revoked && !t.expired
    ensures t.createdAt == now && t.expiresAt - t.createdAt == jwtExpiration * MillisPerMinute
  {
    Token(token, false, false, now, now + jwtExpiration * MillisPerMinute, email)
  }

  /** `saveToken`. */
  method SaveToken(db: Store, email: string, token: string, now: int, jwtExpiration: int) returns (r: Outcome)
    requires db.Valid()
    modifies db`tokens
    ensures db.Valid()
    ensures email !in old(db.users) ==> r == Fail(TokenOwnerNotFoundError) && db.tokens == old(db.tokens)
    ensures email in old(db.users) && FindToken(old(db.tokens), token).Some? ==>
      r == Fail(DuplicateTokenError) && db.tokens == old(db.tokens)
    ensures email in old(db.users) && FindToken(old(db.tokens), token).None? ==>
      r == Pass && db.tokens == old(db.tokens) + [NewToken(token, email, now, jwtExpiration)]
  {
    var t := NewToken(token, email, now, jwtExpiration);
    if email !in db.users {
      return Fail(TokenOwnerNotFoundError);
    }
    var saved := db.SaveNewToken(t);
    r := if saved then Pass else Fail(DuplicateTokenError);
  }

  /** `login`: the user must exist, then the credentials must be accepted;
      the generated token is stored and returned. */
  method Login(db: Store, email: string, password: string,
               authenticate: (string, string) -> bool, generateToken: (string, int) -> string,
               now: int, jwtExpiration: int) returns (r: Result<string>)
    requires db.Valid()
    modifies db`tokens
    ensures db.Valid()
    ensures email !in old(db.users) ==> r == Err(UserNotFoundFor(email)) && db.tokens == old(db.tokens)
    ensures email in old(db.users) && !authenticate(email, password) ==>
      r == Err(BadCredentialsError) && db.tokens == old(db.tokens)
    ensures email in old(db.users) && authenticate(email, password) ==>
      var jwt := generateToken(email, now);
      && (FindToken(old(db.tokens), jwt).Some? ==> r == Err(DuplicateTokenError) && db.tokens == old(db.tokens))
      && (FindToken(old(db.tokens), jwt).None? ==>
            r == Ok(jwt) && db.tokens == old(db.tokens) + [NewToken(jwt, email, now, jwtExpiration)])
  {
    if email !in db.users {
      return Err(UserNotFoundFor(email));
    }
    if !authenticate(email, password) {
      return Err(BadCredentialsError);
    }
    var jwt := generateToken(email, now);
    var saved := SaveToken(db, email, jwt, now, jwtExpiration);
    r := if saved.Pass? then Ok(jwt) else Err(saved.error);
  }

  /** `logout`: exactly `invalidateToken`. */
  method Logout(db: Store, token: string) returns (r: Outcome)
    requires db.Valid()
    modifies db`tokens
    ensures db.Valid()
    ensures var s := JwtBlacklistService.Revoke(old(db.tokens), token);
      && (s.Err? ==> r == Fail(s.error) && db.tokens == old(db.tokens))
      && (s.Ok? ==> r == Pass && db.tokens == s.value)
  {
    r := JwtBlacklistService.InvalidateToken(db, token);
  }

  /** A token appended to a table that did not hold it is found last. */
  lemma {:induction false} FindTokenAppended(tokens: seq<Token>, t: Token)
    requires FindToken(tokens, t.token).None?
    ensures FindToken(tokens + [t], t.token) == Some(|tokens|)
  {
    if tokens != [] {
      assert (tokens + [t])[1..] == tokens[1..] + [t];
      FindTokenAppended(tokens[1..], t);
    }
  }

  /** The token a login stores reads as valid, its first logout succeeds and
      leaves it invalid, and a second logout fails. */
  lemma LoginThenLogout(tokens: seq<Token>, jwt: string, email: string, now: int, jwtExpiration: int)
    requires FindToken(tokens, jwt).None?
    ensures var stored := tokens + [NewToken(jwt, email, now, jwtExpiration)];
      && !JwtBlacklistService.IsTokenInvalid(stored, jwt)
      && JwtBlacklistService.Revoke(stored, jwt).Ok?
      && JwtBlacklistService.IsTokenInvalid(JwtBlacklistService.Revoke(stored, jwt).value, jwt)
      && JwtBlacklistService.Revoke(JwtBlacklistService.Revoke(stored, jwt).value, jwt)
         == Err(JwtBlacklistService.AlreadyRevokedError)
  {
    var stored := tokens + [NewToken(jwt, email, now, jwtExpiration)];
    FindTokenAppended(tokens, NewToken(jwt, email, now, jwtExpiration));
    JwtBlacklistService.RevokeThenInvalid(stored, jwt);
  }
}
