/** AuthService over the services it is built from: every call sequences in-place updates of the
    tables, and the sequence is proved to be the atomic function of `Auth`. */
module AuthServices {
  import opened Text
  import opened TokenTable
  import opened Sessions
  import opened Accounts
  import opened SecondFactor
  import opened Auth
  import opened UserAccounts
  import opened RefreshTokens
  import opened TwoFactor

  class AuthService {
    const users: UsersService
    const refreshTokens: RefreshTokenService
    const twoFactor: TwoFactorService
    const env: Env

    constructor (users: UsersService, refreshTokens: RefreshTokenService, twoFactor: TwoFactorService, env: Env)
      ensures this.users == users && this.refreshTokens == refreshTokens
      ensures this.twoFactor == twoFactor && this.env == env
    {
      this.users, this.refreshTokens, this.twoFactor, this.env := users, refreshTokens, twoFactor, env;
    }

    /** The tables within reach; reset tokens play no part here. */
    ghost function Tables(): Store
      reads users.repository, refreshTokens.repository, twoFactor.repository
    {
      Store(users.repository.rows, refreshTokens.repository.rows, twoFactor.repository.rows, map[])
    }

    /** One configuration, and emails unique. */
    ghost predicate Valid()
      reads users.repository
    {
      users.repository.Valid() && refreshTokens.config == env.sessions && twoFactor.factors == env.factors
    }

    method Register(email: string, passwordHash: string, id: Id, g: Grant, now: int) returns (a: Answer)
      requires Valid() && id !in users.repository.rows && Drawn(refreshTokens.repository.rows, g)
      modifies users.repository, refreshTokens.repository
      ensures Valid()
      ensures (Tables(), a) == Auth.Register(env, old(Tables()), email, passwordHash, id, g, now)
    {
      var created := users.Create(email, passwordHash, None, id);
      if created.Rejected? {
        return created;
      }
      a := BuildAuthResponse(id, None, g, now);
    }

    method Login(email: string, password: string, g: Grant, now: int) returns (a: Answer)
      requires Valid() && Drawn(refreshTokens.repository.rows, g)
      modifies users.repository, refreshTokens.repository
      ensures Valid()
      ensures (Tables(), a) == Auth.Login(env, old(Tables()), email, password, g, now)
    {
      hide Accounts.ValidateCredentials;
      var c := ValidateCredentials(email, password, now);
      if !c.Valid? {
        return Rejected(Unauthorized);
      }
      if c.entity.twoFactorEnabled {
        return Challenge(ChallengeToken(env, c.id, now));
      }
      a := BuildAuthResponse(c.id, None, g, now);
    }

    /** `payload` is what the JWT library makes of the presented challenge, nothing if it rejects it. */
    method LoginSecondFactor(payload: Option<Jwt>, code: string, order: seq<Id>, g: Grant, now: int)
      returns (a: Answer)
      requires Valid() && Drawn(refreshTokens.repository.rows, g)
      requires payload.Some? ==> Listed(Tables(), payload.value.sub, order)
      modifies refreshTokens.repository, twoFactor.repository
      ensures Valid()
      ensures (Tables(), a) == Auth.LoginSecondFactor(env, old(Tables()), payload, code, order, g, now)
    {
      hide SecondFactor.VerifyCode, Lists, Sessions.Issue;
      if payload.None? {
        return Rejected(Unauthorized);
      }
      if payload.value.typ != TwoFactorType {
        return Rejected(Unauthorized);
      }
      var entity := users.FindEntityById(payload.value.sub);
      if entity.None? || !entity.value.isActive || !entity.value.twoFactorEnabled {
        return Rejected(Unauthorized);
      }
      var v := twoFactor.VerifyCode(payload.value.sub, entity.value, code, order, now);
      if v.Failed? {
        return Rejected(ServerError);
      }
      if v.Denied? {
        return Rejected(Unauthorized);
      }
      a := BuildAuthResponse(payload.value.sub, None, g, now);
    }

    method ChangePassword(userId: Id, current: string, newHash: string, now: int) returns (a: Answer)
      requires Valid()
      modifies users.repository, refreshTokens.repository
      ensures Valid()
      ensures (Tables(), a) == Auth.ChangePassword(env, old(Tables()), userId, current, newHash, now)
    {
      var entity := users.FindEntityById(userId);
      if entity.None? {
        return Rejected(Unauthorized);
      }
      if env.factors.argon2(entity.value.passwordHash, current) != Match {
        return Rejected(Unauthorized);
      }
      var _ := users.SetPassword(userId, newHash);
      refreshTokens.RevokeAll(userId, now);
      return Done;
    }

    method Refresh(raw: string, g: Grant, now: int) returns (a: Answer)
      requires Valid() && Drawn(refreshTokens.repository.rows, g)
      modifies refreshTokens.repository
      ensures Valid()
      ensures (Tables(), a) == Auth.Refresh(env, old(Tables()), raw, g, now)
    {
      hide Sessions.Rotate, TokenTable.RevokeAllForUser;
      var r := refreshTokens.Rotate(raw, g, now);
      if r.Refused? {
        return Rejected(Unauthorized);
      }
      var entity := users.FindEntityById(r.userId);
      if entity.None? || !entity.value.isActive {
        refreshTokens.RevokeAll(r.userId, now);
        return Rejected(Unauthorized);
      }
      a := BuildAuthResponse(r.userId, Some(r.token), g, now);
    }

    method Logout(raw: string, now: int)
      requires Valid()
      modifies refreshTokens.repository
      ensures Valid()
      ensures Tables() == old(Tables()).(tokens := Sessions.Logout(old(Tables()).tokens, raw, now))
    {
      refreshTokens.Revoke(raw, now);
    }

    method LogoutAll(userId: Id, now: int)
      requires Valid()
      modifies refreshTokens.repository
      ensures Valid()
      ensures Tables() == old(Tables()).(tokens := RevokeAllForUser(old(Tables()).tokens, userId, now))
    {
      refreshTokens.RevokeAll(userId, now);
    }

    method ValidateCredentials(email: string, password: string, now: int) returns (c: Credentials)
      requires Valid()
      modifies users.repository
      ensures Valid()
      ensures (users.repository.rows, c)
           == Accounts.ValidateCredentials(env.factors.argon2, env.lockout, old(users.repository.rows),
                                           email, password, now)
    {
      var found := users.FindEntityByEmail(email);
      if found.None? || !found.value.row.isActive {
        return NoAccount;
      }
      var id, entity := found.value.id, found.value.row;
      if entity.lockedUntil.Some? && entity.lockedUntil.value > now {
        return Locked(id);
      }
      if env.factors.argon2(entity.passwordHash, password) != Match {
        HandleFailedLogin(id, now);
        return Wrong(id);
      }
      if entity.failedLoginAttempts > 0 || entity.lockedUntil.Some? {
        var _ := users.ClearLoginFailures(id);
      }
      return Credentials.Valid(id, entity);
    }

    method HandleFailedLogin(id: Id, now: int)
      requires Valid() && id in users.repository.rows
      modifies users.repository
      ensures Valid()
      ensures users.repository.rows == Accounts.HandleFailedLogin(env.lockout, old(users.repository.rows), id, now)
    {
      var attempts := users.RegisterFailedLogin(id);
      if attempts.value >= env.lockout.max {
        var _ := users.LockAccount(id, now + env.lockout.lockMs);
      }
    }

    method BuildAuthResponse(userId: Id, existing: Option<string>, g: Grant, now: int) returns (a: Answer)
      requires Valid() && (existing.None? ==> Drawn(refreshTokens.repository.rows, g))
      modifies refreshTokens.repository
      ensures Valid()
      ensures existing.None? ==> (Tables(), a) == StartSession(env, old(Tables()), userId, g, now)
      ensures existing.Some? ==>
                Tables() == old(Tables()) && a == Session(userId, AccessToken(env, userId, now), existing.value)
    {
      var access := AccessToken(env, userId, now);
      if existing.Some? {
        return Session(userId, access, existing.value);
      }
      var raw := refreshTokens.Issue(userId, g, now);
      return Session(userId, access, raw);
    }
  }
}
