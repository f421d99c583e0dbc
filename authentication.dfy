/**
 * The User service's login and refresh-token handlers. Login locks an
 * account for five minutes once three passwords in a row have failed, and a
 * successful login or token refresh issues a fresh access token and rotates
 * the user's refresh tokens.
 */
module Authentication {
  import opened Common
  import opened Linq
  import opened UserStore

  const InvalidCredentials: string := "Invalid credentials."
  const TooManyAttempts: string := "Too many failed login attemtps."
  const InvalidRefreshToken: string := "Invalid refresh token"

  /** Failed attempts from which the account locks, and for how long after the last one. */
  const MaxFailedAttempts: int := 3
  const LockoutWindow: int := 5 * TicksPerMinute

  datatype LoginResult = LoginResult(accessToken: string, refreshToken: string)
  datatype RefreshTokenResult = RefreshTokenResult(accessToken: string, refreshToken: string)

  /**
   * The lockout test: at least three failed attempts, the last less than five
   * minutes before `now` (a `null` last failure never locks).
   */
  predicate LockedOut(u: User, now: Time) {
    u.loginAttempts >= MaxFailedAttempts &&
    u.lastFailedLoginAttempt.Some? && u.lastFailedLoginAttempt.value + LockoutWindow > now
  }

  /** The user after a wrong password at `now`. */
  function FailedAttempt(u: User, now: Time): (v: User)
    ensures v == u.(loginAttempts := v.loginAttempts, lastFailedLoginAttempt := v.lastFailedLoginAttempt)
    ensures v.loginAttempts == u.loginAttempts + 1 && v.lastFailedLoginAttempt == Some(now)
  {
    u.(lastFailedLoginAttempt := Some(now), loginAttempts := u.loginAttempts + 1)
  }

  /** The user after a good password: no failed attempts on record. */
  function SuccessfulAttempt(u: User): (v: User)
    ensures v == u.(loginAttempts := v.loginAttempts, lastFailedLoginAttempt := v.lastFailedLoginAttempt)
    ensures v.loginAttempts == 0 && v.lastFailedLoginAttempt.None?
    ensures forall now :: !LockedOut(v, now)
  {
    u.(loginAttempts := 0, lastFailedLoginAttempt := None)
  }

  function HasEmail(email: string): User -> bool {
    (u: User) => u.email == email
  }

  /** The state a login leaves: its outcome, the users and the refresh tokens. */
  datatype LoginState = LoginState(outcome: Outcome<LoginResult>, users: seq<User>, tokens: seq<RefreshToken>)

  /**
   * A login once its email has found the user at `i`: the lockout first, then
   * the password, then the reset and the new tokens. `validate` is the
   * hashing service's check, `jwt` the access token of a user, `token` and
   * `tokenId` the refresh token generated and the id it is stored under.
   */
  function Attempt(users: seq<User>, tokens: seq<RefreshToken>, i: nat, password: string, now: Time,
                   validate: (string, string) -> bool, jwt: User -> string, token: string, tokenId: Guid): (r: LoginState)
    requires i < |users|
    ensures LockedOut(users[i], now) ==> r == LoginState(Returned(Err(UnauthorizedError(TooManyAttempts))), users, tokens)
    ensures !LockedOut(users[i], now) && !validate(password, users[i].password) ==>
      r == LoginState(Returned(Err(UnauthorizedError(InvalidCredentials))), users[i := FailedAttempt(users[i], now)], tokens)
    ensures r.outcome.Returned? && r.outcome.result.Ok? <==> !LockedOut(users[i], now) && validate(password, users[i].password)
    ensures r.outcome.Returned? && r.outcome.result.Ok? ==>
      r.outcome.result.value == LoginResult(jwt(SuccessfulAttempt(users[i])), token) &&
      r.users == users[i := SuccessfulAttempt(users[i])] &&
      r.tokens == Rotate(tokens, users[i].id, tokenId, token, now)
  {
    var u := users[i];
    if LockedOut(u, now) then
      LoginState(Returned(Err(UnauthorizedError(TooManyAttempts))), users, tokens)
    else if !validate(password, u.password) then
      LoginState(Returned(Err(UnauthorizedError(InvalidCredentials))), users[i := FailedAttempt(u, now)], tokens)
    else
      var v := SuccessfulAttempt(u);
      LoginState(Returned(Ok(LoginResult(jwt(v), token))), users[i := v], Rotate(tokens, u.id, tokenId, token, now))
  }

  /**
   * `LoginQueryHandler.Handle` as written: `SingleAsync` throws unless
   * exactly one user has the lower-cased email, so its `null` check never
   * answers.
   */
  function LoginAsWritten(users: seq<User>, tokens: seq<RefreshToken>, email: string, password: string, now: Time,
                          validate: (string, string) -> bool, jwt: User -> string, token: string, tokenId: Guid): LoginState
  {
    var m := SingleWhere(users, HasEmail(ToLower(email)));
    if m.Match? then Attempt(users, tokens, m.index, password, now, validate, jwt, token, tokenId)
    else LoginState(Threw, users, tokens)
  }

  /** The login the `null` check means: an unknown email is refused like a wrong password. */
  function Login(users: seq<User>, tokens: seq<RefreshToken>, email: string, password: string, now: Time,
                 validate: (string, string) -> bool, jwt: User -> string, token: string, tokenId: Guid): LoginState
  {
    var m := SingleWhere(users, HasEmail(ToLower(email)));
    if m.Match? then Attempt(users, tokens, m.index, password, now, validate, jwt, token, tokenId)
    else if m.NoMatch? then LoginState(Returned(Err(UnauthorizedError(InvalidCredentials))), users, tokens)
    else LoginState(Threw, users, tokens)
  }

  /**
   * An unknown email: as written the handler throws; as meant it answers
   * "Invalid credentials." and changes nothing. The two agree on every email
   * that is known.
   */
  lemma UnknownEmail(users: seq<User>, tokens: seq<RefreshToken>, email: string, password: string, now: Time,
                     validate: (string, string) -> bool, jwt: User -> string, token: string, tokenId: Guid)
    requires forall u :: u in users ==> u.email != ToLower(email)
    ensures LoginAsWritten(users, tokens, email, password, now, validate, jwt, token, tokenId).outcome == Threw
    ensures Login(users, tokens, email, password, now, validate, jwt, token, tokenId)
      == LoginState(Returned(Err(UnauthorizedError(InvalidCredentials))), users, tokens)
  {
    assert forall i :: 0 <= i < |users| ==> !HasEmail(ToLower(email))(users[i]) by {
      forall i | 0 <= i < |users| ensures !HasEmail(ToLower(email))(users[i]) {
        assert users[i] in users;
      }
    }
  }

  lemma KnownEmailAgrees(users: seq<User>, tokens: seq<RefreshToken>, email: string, password: string, now: Time,
                         validate: (string, string) -> bool, jwt: User -> string, token: string, tokenId: Guid)
    requires LoginAsWritten(users, tokens, email, password, now, validate, jwt, token, tokenId).outcome.Returned?
    ensures Login(users, tokens, email, password, now, validate, jwt, token, tokenId)
      == LoginAsWritten(users, tokens, email, password, now, validate, jwt, token, tokenId)
  {
  }

  /**
   * A run of wrong passwords at `times` against a user with no failures on
   * record: the user afterwards, and the times at which the password was
   * actually checked (the others were turned away by the lockout).
   */
  function Guesses(u: User, times: seq<Time>): (User, seq<Time>)
    decreases |times|
  {
    if times == [] then (u, [])
    else
      var (v, checked) := Guesses(u, times[..|times| - 1]);
      var t := times[|times| - 1];
      if LockedOut(v, t) then (v, checked) else (FailedAttempt(v, t), checked + [t])
  }

  /**
   * The lockout spaces out guesses: after the first three, every password
   * check of a run of wrong passwords comes at least five minutes after the
   * previous one, so no five-minute span sees more than three.
   */
  lemma {:induction false} LockoutSpacesGuesses(u: User, times: seq<Time>)
    requires u.loginAttempts == 0
    ensures var (v, c) := Guesses(u, times);
      v.loginAttempts == |c| &&
      (|c| > 0 ==> v.lastFailedLoginAttempt == Some(c[|c| - 1])) &&
      (|c| == 0 ==> v == u) &&
      forall k :: MaxFailedAttempts <= k < |c| ==> c[k] >= c[k - 1] + LockoutWindow
    decreases |times|
  {
    if times != [] {
      LockoutSpacesGuesses(u, times[..|times| - 1]);
    }
  }

  /** Three wrong passwords in a row lock the account for five minutes after the last. */
  lemma ThreeStrikes(u: User, t1: Time, t2: Time, t3: Time, now: Time)
    requires u.loginAttempts >= 0
    requires t3 <= now < t3 + LockoutWindow
    ensures LockedOut(FailedAttempt(FailedAttempt(FailedAttempt(u, t1), t2), t3), now)
  {
  }

  /** `LoginQueryHandler.Handle` as written, over the context and the refresh-token generator. */
  method LoginHandler(db: UserDatabase, gen: RefreshTokenGenerator, email: string, password: string, now: Time,
                      validate: (string, string) -> bool, jwt: User -> string, random: seq<Byte>, tokenId: Guid)
    returns (r: Outcome<LoginResult>)
    requires gen.context == db
    requires |random| == RefreshTokenBytes
    modifies db
    ensures var token := Base64.Encode(Base64.Standard, random);
      LoginState(r, db.users, db.refreshTokens)
        == LoginAsWritten(old(db.users), old(db.refreshTokens), email, password, now, validate, jwt, token, tokenId)
  {
    ghost var token := Base64.Encode(Base64.Standard, random);
    var m := SingleWhere(db.users, HasEmail(ToLower(email)));
    if !m.Match? {
      return Threw;
    }
    var user := db.users[m.index];
    if user.loginAttempts >= MaxFailedAttempts && user.lastFailedLoginAttempt.Some?
       && user.lastFailedLoginAttempt.value + LockoutWindow > now {
      return Returned(Err(UnauthorizedError(TooManyAttempts)));
    }
    if !validate(password, user.password) {
      user := user.(lastFailedLoginAttempt := Some(now), loginAttempts := user.loginAttempts + 1);
      db.users := db.users[m.index := user];
      return Returned(Err(UnauthorizedError(InvalidCredentials)));
    }
    user := user.(loginAttempts := 0, lastFailedLoginAttempt := None);
    db.users := db.users[m.index := user];
    var accessToken := jwt(user);
    var refreshToken := gen.GenerateAndStoreRefreshToken(user, random, tokenId, now);
    r := Returned(Ok(LoginResult(accessToken, refreshToken)));
  }

  function HasToken(token: string): RefreshToken -> bool {
    (t: RefreshToken) => t.token == token
  }

  function HasId(id: Guid): User -> bool {
    (u: User) => u.id == id
  }

  /** The state a refresh leaves: its outcome and the refresh tokens. */
  datatype RefreshState = RefreshState(outcome: Outcome<RefreshTokenResult>, tokens: seq<RefreshToken>)

  /**
   * A refresh once the presented token was found at `i` and its user at `j`:
   * a new access token, the tokens rotated, and the presented one marked used.
   */
  function Redeem(users: seq<User>, tokens: seq<RefreshToken>, i: nat, j: nat, now: Time,
                  jwt: User -> string, token: string, tokenId: Guid): (r: RefreshState)
    requires i < |tokens| && j < |users|
    ensures r.outcome == Returned(Ok(RefreshTokenResult(jwt(users[j]), token)))
    ensures |r.tokens| == |tokens| + 1
    ensures r.tokens[i].isUsed && r.tokens[i].isRevoked
    ensures forall k :: 0 <= k < |tokens| ==> r.tokens[k].token == tokens[k].token
    ensures r.tokens[|tokens|] == Issued(tokenId, tokens[i].userId, token, now)
  {
    var rotated := Rotate(tokens, tokens[i].userId, tokenId, token, now);
    RefreshState(Returned(Ok(RefreshTokenResult(jwt(users[j]), token))), rotated[i := rotated[i].(isUsed := true)])
  }

  /**
   * `RefreshTokenQueryHandler.Handle` as written: any stored token string of
   * an existing user is accepted, whether revoked, used or expired.
   * (`SingleOrDefault` throws when the string or the id is not unique.)
   */
  function RefreshAsWritten(users: seq<User>, tokens: seq<RefreshToken>, presented: string, now: Time,
                            jwt: User -> string, token: string, tokenId: Guid): RefreshState
  {
    var t := SingleWhere(tokens, HasToken(presented));
    if t.Ambiguous? then RefreshState(Threw, tokens)
    else if t.NoMatch? then RefreshState(Returned(Err(UnauthorizedError(InvalidRefreshToken))), tokens)
    else
      var u := SingleWhere(users, HasId(tokens[t.index].userId));
      if u.Ambiguous? then RefreshState(Threw, tokens)
      else if u.NoMatch? then RefreshState(Returned(Err(UnauthorizedError(InvalidRefreshToken))), tokens)
      else Redeem(users, tokens, t.index, u.index, now, jwt, token, tokenId)
  }

  /** A token that can still be redeemed: neither revoked nor used, and not yet expired. */
  predicate Redeemable(t: RefreshToken, now: Time) {
    !t.isRevoked && !t.isUsed && now < t.expiresAt
  }

  /** The refresh the token's fields are there for: a token that is not redeemable is refused. */
  function Refresh(users: seq<User>, tokens: seq<RefreshToken>, presented: string, now: Time,
                   jwt: User -> string, token: string, tokenId: Guid): RefreshState
  {
    var t := SingleWhere(tokens, HasToken(presented));
    if t.Match? && !Redeemable(tokens[t.index], now) then
      RefreshState(Returned(Err(UnauthorizedError(InvalidRefreshToken))), tokens)
    else RefreshAsWritten(users, tokens, presented, now, jwt, token, tokenId)
  }

  /**
   * A token redeemed once can be redeemed again as written: its string still
   * finds it and its user is still there. With the intended check, the second
   * redemption is refused and changes nothing.
   */
  lemma ReplayedRefreshToken(users: seq<User>, tokens: seq<RefreshToken>, presented: string, now: Time, later: Time,
                             jwt: User -> string, token: string, tokenId: Guid, token2: string, tokenId2: Guid)
    requires RefreshAsWritten(users, tokens, presented, now, jwt, token, tokenId).outcome.Returned?
    requires RefreshAsWritten(users, tokens, presented, now, jwt, token, tokenId).outcome.result.Ok?
    requires token != presented
    ensures var after := RefreshAsWritten(users, tokens, presented, now, jwt, token, tokenId).tokens;
      RefreshAsWritten(users, after, presented, later, jwt, token2, tokenId2).outcome.Returned? &&
      RefreshAsWritten(users, after, presented, later, jwt, token2, tokenId2).outcome.result.Ok? &&
      Refresh(users, after, presented, later, jwt, token2, tokenId2)
        == RefreshState(Returned(Err(UnauthorizedError(InvalidRefreshToken))), after)
  {
    var t := SingleWhere(tokens, HasToken(presented));
    var u := SingleWhere(users, HasId(tokens[t.index].userId));
    var after := RefreshAsWritten(users, tokens, presented, now, jwt, token, tokenId).tokens;
    assert after == Redeem(users, tokens, t.index, u.index, now, jwt, token, tokenId).tokens;
    var t2 := SingleWhere(after, HasToken(presented));
    assert HasToken(presented)(after[t.index]);
    assert after[|tokens|].token == token;
    forall k | 0 <= k < |after| && HasToken(presented)(after[k])
      ensures k == t.index
    {
      if k < |tokens| {
        assert HasToken(presented)(tokens[k]);
      }
    }
    assert t2 == Match(t.index);
    assert after[t.index].userId == tokens[t.index].userId;
  }

  /**
   * The corrected refresh redeems only redeemable tokens: a presented string
   * that finds a revoked, used or expired token never yields new tokens and
   * leaves the stored tokens as they were; when every token it finds is
   * redeemable, the refresh is the handler as written.
   */
  lemma RefreshOnlyRedeemable(users: seq<User>, tokens: seq<RefreshToken>, presented: string, now: Time,
                                jwt: User -> string, token: string, tokenId: Guid)
    ensures var r := Refresh(users, tokens, presented, now, jwt, token, tokenId);
      (forall k :: 0 <= k < |tokens| && HasToken(presented)(tokens[k]) && !Redeemable(tokens[k], now) ==>
         r.tokens == tokens && !(r.outcome.Returned? && r.outcome.result.Ok?))
    ensures (forall k :: 0 <= k < |tokens| && HasToken(presented)(tokens[k]) ==> Redeemable(tokens[k], now)) ==>
      Refresh(users, tokens, presented, now, jwt, token, tokenId) == RefreshAsWritten(users, tokens, presented, now, jwt, token, tokenId)
  {
  }

  /** `RefreshTokenQueryHandler.Handle` as written, over the context and the refresh-token generator. */
  method RefreshHandler(db: UserDatabase, gen: RefreshTokenGenerator, presented: string, now: Time,
                        jwt: User -> string, random: seq<Byte>, tokenId: Guid)
    returns (r: Outcome<RefreshTokenResult>)
    requires gen.context == db
    requires |random| == RefreshTokenBytes
    modifies db
    ensures db.users == old(db.users)
    ensures var token := Base64.Encode(Base64.Standard, random);
      RefreshState(r, db.refreshTokens) == RefreshAsWritten(old(db.users), old(db.refreshTokens), presented, now, jwt, token, tokenId)
  {
    var t := SingleWhere(db.refreshTokens, HasToken(presented));
    if t.Ambiguous? {
      return Threw;
    }
    if t.NoMatch? {
      return Returned(Err(UnauthorizedError(InvalidRefreshToken)));
    }
    var refreshToken := db.refreshTokens[t.index];
    var u := SingleWhere(db.users, HasId(refreshToken.userId));
    if u.Ambiguous? {
      return Threw;
    }
    if u.NoMatch? {
      return Returned(Err(UnauthorizedError(InvalidRefreshToken)));
    }
    var user := db.users[u.index];
    var accessToken := jwt(user);
    var newRefreshToken := gen.GenerateAndStoreRefreshToken(user, random, tokenId, now);
    db.refreshTokens := db.refreshTokens[t.index := db.refreshTokens[t.index].(isUsed := true)];
    r := Returned(Ok(RefreshTokenResult(accessToken, newRefreshToken)));
  }
}
