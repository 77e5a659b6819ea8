/** Login, refresh, logout and logout-all (app/services/auth.py): refresh token rotation as in
    section 4.14.2 of RFC 9700. Each operation is specified as a function of the committed
    database, and the service class is proved to compute it. */
module Auth {
  import opened Prelude
  import opened Numerals
  import opened Database
  import opened Security
  import opened RefreshTokens
  import opened RateLimit

  datatype AuthError = AuthenticationFailed | RateLimitExceeded | InactiveUser | IntegrityError

  datatype TokenResponse = TokenResponse(accessToken: Token, refreshToken: Token)

  datatype Settings = Settings(accessLifetime: int, refreshLifetime: int)

  type Reply = Result<TokenResponse, AuthError>

  /** What a request leaves behind: the committed database and the answer. */
  datatype Effect = Effect(db: AuthDb, reply: Reply)

  /** The record a refresh token names, with the user and family its claims carry. */
  datatype Named = Named(record: nat, userId: nat, familyId: string)

  function GetRefreshTokenRecord(db: AuthDb, token: Token, now: int, tolerated: bool): (r: Option<Named>)
    ensures r.Some? ==> r.value.record < |db.rows| && db.rows[r.value.record].userId == r.value.userId
  {
    match DecodeRefreshToken(token, now, tolerated)
    case None => None
    case Some(claims) =>
      match ParseDecimal(claims.sub)
      case None => None
      case Some(userId) =>
        match FindByHash(db.rows, Sha256(claims.jti))
        case None => None
        case Some(record) =>
          if db.rows[record].userId != userId then None
          else Some(Named(record, userId, claims.familyId))
  }

  /** `_issue_token_pair` for a new family, and the commit that follows it. */
  function Issue(settings: Settings, db: AuthDb, userId: nat, now: int, uuids: (string, string)): Effect {
    var access := AccessToken(Decimal(userId), now + settings.accessLifetime);
    var refresh := CreateRefreshToken(Decimal(userId), None, None, now, settings.refreshLifetime, uuids);
    if FindByHash(db.rows, Sha256(refresh.jti)).Some? then Effect(db, Err(IntegrityError))
    else
      var row := Row(userId, Sha256(refresh.jti), refresh.familyId, None, refresh.expiresAt, None, None);
      Effect(db.(rows := db.rows + [row]), Ok(TokenResponse(access, refresh.token)))
  }

  /** What `refresh_session` does once the token has named a record. */
  function Redeem(settings: Settings, db: AuthDb, named: Named, now: int, uuids: (string, string)): Effect
    requires named.record < |db.rows|
  {
    var Named(i, userId, familyId) := named;
    var row := db.rows[i];
    if row.expiresAt <= now then
      Effect(db.(rows := db.rows[i := Revoked(row, now, None)]), Err(AuthenticationFailed))
    else if row.revokedAt.Some? then
      if row.replacedBy.Some? then
        Effect(db.(rows := FamilyRevoked(db.rows, row.familyId, now, true)), Err(AuthenticationFailed))
      else Effect(db, Err(AuthenticationFailed))
    else if userId !in db.users || !db.users[userId] then Effect(db, Err(AuthenticationFailed))
    else
      var next := CreateRefreshToken(Decimal(userId), Some(familyId), None, now,
                                     settings.refreshLifetime, uuids);
      var nextHash := Sha256(next.jti);
      var rotated := db.rows[i := Revoked(row, now, Some(nextHash))];
      if FindByHash(rotated, nextHash).Some? then Effect(db, Err(IntegrityError))
      else
        var nextRow := Row(userId, nextHash, familyId, None, next.expiresAt, None, None);
        var access := AccessToken(Decimal(userId), now + settings.accessLifetime);
        Effect(db.(rows := rotated + [nextRow]), Ok(TokenResponse(access, next.token)))
  }

  function Refresh(settings: Settings, db: AuthDb, token: Token, now: int, tolerated: bool,
                   uuids: (string, string)): Effect
  {
    match GetRefreshTokenRecord(db, token, now, tolerated)
    case None => Effect(db, Err(AuthenticationFailed))
    case Some(named) => Redeem(settings, db, named, now, uuids)
  }

  function Logout(db: AuthDb, token: Token, now: int, tolerated: bool): (AuthDb, bool) {
    match GetRefreshTokenRecord(db, token, now, tolerated)
    case None => (db, false)
    case Some(named) =>
      var row := db.rows[named.record];
      if Live(row) then (db.(rows := db.rows[named.record := Revoked(row, now, None)]), true)
      else (db, true)
  }

  function LogoutAll(db: AuthDb, userId: nat, now: int): AuthDb {
    db.(rows := UserRevoked(db.rows, userId, now))
  }

  class AuthService {
    const settings: Settings
    const session: Session<AuthDb>
    const refreshTokens: RefreshTokenRepository
    const rateLimiter: RedisLoginRateLimiter

    constructor (settings: Settings, session: Session<AuthDb>, rateLimiter: RedisLoginRateLimiter)
      ensures this.settings == settings && this.session == session && this.rateLimiter == rateLimiter
      ensures Valid()
    {
      this.settings, this.session, this.rateLimiter := settings, session, rateLimiter;
      this.refreshTokens := new RefreshTokenRepository(session);
    }

    ghost predicate Valid() {
      refreshTokens.session == session
    }

    /** `credentials` is the user whose e-mail and password match, if any. The limiter's counter
        is cleared before the tokens are issued. */
    method LoginUser(credentials: Option<nat>, rateLimitKey: string, now: int, redis: Redis,
                     uuids: (string, string)) returns (reply: Reply)
      requires Valid() && session.Idle()
      modifies session, rateLimiter
      ensures session.Idle()
      ensures forall k | k != rateLimitKey :: rateLimiter.EntryOf(k) == old(rateLimiter.EntryOf(k))
      ensures
        var db, entry := old(session.committed), old(rateLimiter.EntryOf(rateLimitKey));
        var entry', db' := rateLimiter.EntryOf(rateLimitKey), session.committed;
        if !Allows(rateLimiter.limits, entry, now, redis.getUp) then
          reply == Err(RateLimitExceeded) && db' == db && entry' == entry
        else if credentials.None? || credentials.value !in db.users then
          reply == Err(AuthenticationFailed) && db' == db
          && entry' == AfterFailure(rateLimiter.limits, entry, now, redis.incrUp, redis.expireUp)
        else if !db.users[credentials.value] then
          reply == Err(InactiveUser) && db' == db && entry' == entry
        else
          Effect(db', reply) == Issue(settings, db, credentials.value, now, uuids)
          && entry' == if redis.deleteUp then None else entry
    {
      var allowed := rateLimiter.IsAllowed(rateLimitKey, now, redis);
      if !allowed {
        return Err(RateLimitExceeded);
      }
      if credentials.None? || credentials.value !in session.working.users {
        rateLimiter.AddFailure(rateLimitKey, now, redis);
        return Err(AuthenticationFailed);
      }
      var userId := credentials.value;
      if !session.working.users[userId] {
        return Err(InactiveUser);
      }
      rateLimiter.Clear(rateLimitKey, redis);
      reply := IssueTokenPair(userId, now, uuids);
      if reply.Err? {
        session.Rollback();
        return;
      }
      session.Commit();
    }

    method IssueTokenPair(userId: nat, now: int, uuids: (string, string)) returns (reply: Reply)
      requires Valid()
      modifies session`working
      ensures Effect(session.working, reply) == Issue(settings, old(session.working), userId, now, uuids)
    {
      var access := AccessToken(Decimal(userId), now + settings.accessLifetime);
      var refresh := CreateRefreshToken(Decimal(userId), None, None, now, settings.refreshLifetime, uuids);
      var created := refreshTokens.CreateToken(userId, Sha256(refresh.jti), refresh.familyId, refresh.expiresAt);
      if !created {
        return Err(IntegrityError);
      }
      return Ok(TokenResponse(access, refresh.token));
    }

    method FindRecord(token: Token, now: int, tolerated: bool) returns (named: Option<Named>)
      requires Valid()
      ensures named == GetRefreshTokenRecord(session.working, token, now, tolerated)
    {
      var claims := DecodeRefreshToken(token, now, tolerated);
      if claims.None? {
        return None;
      }
      var userId := ParseDecimal(claims.value.sub);
      if userId.None? {
        return None;
      }
      var record := refreshTokens.GetByJtiHash(Sha256(claims.value.jti));
      if record.None? || session.working.rows[record.value].userId != userId.value {
        return None;
      }
      return Some(Named(record.value, userId.value, claims.value.familyId));
    }

    method RefreshSession(token: Token, now: int, tolerated: bool, uuids: (string, string))
      returns (reply: Reply)
      requires Valid() && session.Idle()
      modifies session
      ensures session.Idle()
      ensures Effect(session.committed, reply)
              == Refresh(settings, old(session.committed), token, now, tolerated, uuids)
    {
      var named := FindRecord(token, now, tolerated);
      if named.None? {
        return Err(AuthenticationFailed);
      }
      var Named(i, userId, familyId) := named.value;
      var row := session.working.rows[i];
      if row.expiresAt <= now {
        refreshTokens.RevokeToken(i, now);
        session.Commit();
        return Err(AuthenticationFailed);
      }
      if row.revokedAt.Some? {
        if row.replacedBy.Some? {
          refreshTokens.RevokeFamily(row.familyId, now, true);
          assert session.working.rows == FamilyRevoked(old(session.committed).rows, row.familyId, now, true);
          session.Commit();
        }
        return Err(AuthenticationFailed);
      }
      if userId !in session.working.users || !session.working.users[userId] {
        return Err(AuthenticationFailed);
      }
      var next := CreateRefreshToken(Decimal(userId), Some(familyId), None, now,
                                     settings.refreshLifetime, uuids);
      var nextHash := Sha256(next.jti);
      refreshTokens.RevokeToken(i, now, Some(nextHash));
      var created := refreshTokens.CreateToken(userId, nextHash, familyId, next.expiresAt);
      if !created {
        session.Rollback();
        return Err(IntegrityError);
      }
      var access := AccessToken(Decimal(userId), now + settings.accessLifetime);
      session.Commit();
      return Ok(TokenResponse(access, next.token));
    }

    method LogoutSession(token: Token, now: int, tolerated: bool) returns (found: bool)
      requires Valid() && session.Idle()
      modifies session
      ensures session.Idle()
      ensures (session.committed, found) == Logout(old(session.committed), token, now, tolerated)
    {
      var named := FindRecord(token, now, tolerated);
      if named.None? {
        return false;
      }
      if session.working.rows[named.value.record].revokedAt.None? {
        refreshTokens.RevokeToken(named.value.record, now);
        session.Commit();
      }
      return true;
    }

    method LogoutEverywhere(userId: nat, now: int)
      requires Valid() && session.Idle()
      modifies session
      ensures session.Idle() && session.committed == LogoutAll(old(session.committed), userId, now)
    {
      refreshTokens.RevokeAllForUser(userId, now);
      assert session.working.rows == UserRevoked(old(session.committed).rows, userId, now);
      session.Commit();
    }
  }
}
