/** PasswordResetRepository and PasswordResetService, updating reset tokens, accounts and sessions in
    place and proved against the functions of `Resets` and `Auth`. */
module PasswordReset {
  import opened Text
  import opened Accounts
  import opened TokenTable
  import opened Resets
  import opened Auth
  import opened UserAccounts
  import opened RefreshTokens

  class PasswordResetRepository {
    var rows: ResetTokens

    ghost predicate Valid()
      reads this
    {
      UniqueHashes(rows)
    }

    constructor ()
      ensures Valid() && rows == map[]
    {
      rows := map[];
    }

    method Create(id: Id, userId: Id, tokenHash: string, expiresAt: int)
      requires Valid() && id !in rows && Resets.FindByHash(rows, tokenHash).None?
      modifies this
      ensures Valid() && rows == Resets.Create(old(rows), id, userId, tokenHash, expiresAt)
    {
      forall k | k in rows
        ensures rows[k].tokenHash != tokenHash
      {
        assert !HasHash(rows, k, tokenHash);
      }
      rows := rows[id := ResetToken(userId, tokenHash, expiresAt, None)];
    }

    method FindByHash(tokenHash: string) returns (id: Option<Id>)
      requires Valid()
      ensures id == Resets.FindByHash(rows, tokenHash)
    {
      if k :| k in rows && rows[k].tokenHash == tokenHash {
        assert HasHash(rows, k, tokenHash);
        id := Some(k);
      } else {
        assert forall k :: !HasHash(rows, k, tokenHash);
        id := None;
      }
    }

    method MarkUsed(id: Id, now: int)
      requires Valid() && id in rows
      modifies this
      ensures Valid() && rows == Resets.MarkUsed(old(rows), id, now)
    {
      rows := rows[id := rows[id].(usedAt := Some(now))];
    }

    method InvalidateAllForUser(userId: Id, now: int)
      requires Valid()
      modifies this
      ensures Valid() && rows == Resets.InvalidateAllForUser(old(rows), userId, now)
    {
      rows := map id | id in rows ::
        if rows[id].userId == userId && rows[id].usedAt.None? then rows[id].(usedAt := Some(now)) else rows[id];
    }
  }

  class PasswordResetService {
    const users: UsersService
    const repository: PasswordResetRepository
    const refreshTokens: RefreshTokenService
    const env: Env

    constructor (
        users: UsersService, repository: PasswordResetRepository, refreshTokens: RefreshTokenService, env: Env)
      ensures this.users == users && this.repository == repository
      ensures this.refreshTokens == refreshTokens && this.env == env
    {
      this.users, this.repository, this.refreshTokens, this.env := users, repository, refreshTokens, env;
    }

    /** The tables within reach; recovery codes play no part here. */
    ghost function Tables(): Store
      reads users.repository, repository, refreshTokens.repository
    {
      Store(users.repository.rows, refreshTokens.repository.rows, map[], repository.rows)
    }

    ghost predicate Valid()
      reads users.repository, repository
    {
      users.repository.Valid() && repository.Valid()
    }

    method Request(email: string, id: Id, raw: string, now: int) returns (a: Answer)
      requires Valid() && id !in repository.rows
      requires Resets.FindByHash(repository.rows, env.sessions.sha256(raw)).None?
      modifies repository
      ensures Valid()
      ensures (Tables(), a) == RequestReset(env, old(Tables()), email, id, raw, now)
    {
      a := Done;
      var user := users.FindEntityByEmail(email);
      if user.None? || !user.value.row.isActive {
        return;
      }
      repository.Create(id, user.value.id, env.sessions.sha256(raw), now + env.resetTtl);
    }

    method Reset(raw: string, newHash: string, now: int) returns (a: Answer)
      requires Valid()
      modifies users.repository, repository, refreshTokens.repository
      ensures Valid()
      ensures (Tables(), a) == Auth.Reset(env, old(Tables()), raw, newHash, now)
    {
      hide Resets.InvalidateAllForUser, TokenTable.RevokeAllForUser, Accounts.SetPassword, Resets.MarkUsed;
      var id := repository.FindByHash(env.sessions.sha256(raw));
      if id.None? {
        return Rejected(BadRequest);
      }
      var record := repository.rows[id.value];
      if record.usedAt.Some? || record.expiresAt < now {
        return Rejected(BadRequest);
      }
      var ok := users.SetPassword(record.userId, newHash);
      if !ok {
        return Rejected(ServerError);
      }
      repository.MarkUsed(id.value, now);
      repository.InvalidateAllForUser(record.userId, now);
      refreshTokens.RevokeAll(record.userId, now);
      return Done;
    }
  }
}
