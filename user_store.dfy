/**
 * The User service's records and its `RefreshTokenGenerator`: a refresh
 * token is the base 64 text of 64 random bytes, and storing a new one for a
 * user revokes every token of that user that was still live.
 */
module UserStore {
  import opened Common
  import opened Base64

  /** A refresh token expires seven days after it is created. */
  const RefreshTokenLifetime: int := 7 * TicksPerDay

  /** The number of random bytes behind a refresh token. */
  const RefreshTokenBytes: nat := 64

  /** The `User` entity; `password` is the stored hash. */
  datatype User = User(id: Guid, name: string, email: string, password: string,
                       loginAttempts: int, lastFailedLoginAttempt: Option<Time>)

  /** `new User(name, email, password)`: no failed attempts, the last failure at `DateTime.MinValue`. */
  function NewUser(id: Guid, name: string, email: string, password: string): (u: User)
    ensures u.id == id && u.name == name && u.email == email && u.password == password
    ensures u.loginAttempts == 0 && u.lastFailedLoginAttempt == Some(DefaultTime)
  {
    User(id, name, email, password, 0, Some(DefaultTime))
  }

  /** The `RefreshToken` entity. */
  datatype RefreshToken = RefreshToken(id: Guid, userId: Guid, token: string, expiresAt: Time,
                                       createdAt: Time, isRevoked: bool, isUsed: bool)

  /** A token of `userId` that has not been revoked. */
  predicate IsLive(t: RefreshToken, userId: Guid) {
    t.userId == userId && !t.isRevoked
  }

  /** The user's live tokens revoked; nothing else changes. */
  function Revoke(tokens: seq<RefreshToken>, userId: Guid): (r: seq<RefreshToken>)
    ensures |r| == |tokens|
    ensures forall i :: 0 <= i < |r| ==> !IsLive(r[i], userId)
    ensures forall i :: 0 <= i < |r| ==> r[i] == tokens[i].(isRevoked := r[i].isRevoked)
    ensures forall i :: 0 <= i < |r| && tokens[i].userId != userId ==> r[i] == tokens[i]
    ensures forall i :: 0 <= i < |r| ==> (r[i].isRevoked <==> tokens[i].isRevoked || tokens[i].userId == userId)
  {
    seq(|tokens|, i requires 0 <= i < |tokens| =>
      if IsLive(tokens[i], userId) then tokens[i].(isRevoked := true) else tokens[i])
  }

  /** The token `GenerateAndStoreRefreshTokenAsync` adds. */
  function Issued(id: Guid, userId: Guid, token: string, now: Time): (t: RefreshToken)
    ensures IsLive(t, userId) && !t.isUsed && t.token == token
    ensures t.createdAt == now && t.expiresAt == now + RefreshTokenLifetime
  {
    RefreshToken(id, userId, token, now + RefreshTokenLifetime, now, false, false)
  }

  /**
   * The tokens after `GenerateAndStoreRefreshTokenAsync`: the user's live
   * tokens revoked and the new one appended, so that it is the only one of
   * theirs left live, while other users' tokens are untouched.
   */
  function Rotate(tokens: seq<RefreshToken>, userId: Guid, id: Guid, token: string, now: Time): (r: seq<RefreshToken>)
    ensures |r| == |tokens| + 1
    ensures r[|tokens|] == Issued(id, userId, token, now)
    ensures forall i :: 0 <= i < |r| ==> (IsLive(r[i], userId) <==> i == |tokens|)
    ensures forall i :: 0 <= i < |tokens| && tokens[i].userId != userId ==> r[i] == tokens[i]
    ensures forall i :: 0 <= i < |tokens| ==> r[i] == tokens[i].(isRevoked := r[i].isRevoked)
  {
    Revoke(tokens, userId) + [Issued(id, userId, token, now)]
  }

  /** The users and refresh tokens of `UserDatabaseContext`. */
  class UserDatabase {
    var users: seq<User>
    var refreshTokens: seq<RefreshToken>

    constructor (initialUsers: seq<User>, initialTokens: seq<RefreshToken>)
      ensures users == initialUsers && refreshTokens == initialTokens
    {
      users := initialUsers;
      refreshTokens := initialTokens;
    }
  }

  /** `RefreshTokenGenerator`, over the context it was given. */
  class RefreshTokenGenerator {
    const context: UserDatabase

    constructor (c: UserDatabase)
      ensures context == c
    {
      context := c;
    }

    /**
     * `GenerateRefreshToken`, given the bytes the random number generator
     * yields: 88 characters, the last two of them padding, that decode back
     * to those bytes.
     */
    method GenerateRefreshToken(random: seq<Byte>) returns (token: string)
      requires |random| == RefreshTokenBytes
      ensures token == Encode(Standard, random)
      ensures |token| == 88 && token[86..] == "=="
      ensures Decode(Standard, token) == Some(random)
    {
      token := Encode(Standard, random);
      EncodeLength(Standard, random);
      assert |token| == 4 * ((64 + 2) / 3) == 88;
      PaddingByRemainder(|random|);
      assert Padding(|random|) == 2;
      EncodePadding(Standard, random);
      assert token[|token| - 2..] == "=="[..2] == "==";
      DecodeEncode(Standard, random);
    }

    /** `RevokeOldRefreshTokenAsync`: the user's live tokens revoked, and none added. */
    method RevokeOldRefreshToken(user: User)
      modifies context
      ensures context.refreshTokens == Revoke(old(context.refreshTokens), user.id)
      ensures context.users == old(context.users)
    {
      var i := 0;
      while i < |context.refreshTokens|
        invariant 0 <= i <= |context.refreshTokens| == |old(context.refreshTokens)|
        invariant context.users == old(context.users)
        invariant forall j :: 0 <= j < i ==> context.refreshTokens[j] == Revoke(old(context.refreshTokens), user.id)[j]
        invariant forall j :: i <= j < |context.refreshTokens| ==> context.refreshTokens[j] == old(context.refreshTokens)[j]
      {
        var t := context.refreshTokens[i];
        if t.userId == user.id && !t.isRevoked {
          context.refreshTokens := context.refreshTokens[i := t.(isRevoked := true)];
        }
        i := i + 1;
      }
    }

    /**
     * `GenerateAndStoreRefreshTokenAsync`: revokes the user's live tokens,
     * stores a new one issued at `now` under the id the store assigns, and
     * returns its text.
     */
    method GenerateAndStoreRefreshToken(user: User, random: seq<Byte>, id: Guid, now: Time) returns (token: string)
      requires |random| == RefreshTokenBytes
      modifies context
      ensures token == Encode(Standard, random)
      ensures context.refreshTokens == Rotate(old(context.refreshTokens), user.id, id, token, now)
      ensures context.users == old(context.users)
    {
      token := GenerateRefreshToken(random);
      RevokeOldRefreshToken(user);
      context.refreshTokens := context.refreshTokens + [Issued(id, user.id, token, now)];
    }
  }
}
