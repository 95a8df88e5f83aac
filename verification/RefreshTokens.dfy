/** RefreshTokenRepository and RefreshTokenService: the table is updated in place, one row or one
    user's rows at a time, and each method is proved against the functions of `TokenTable` and
    `Sessions`. */
module RefreshTokens {
  import opened Text
  import opened TokenTable
  import opened Sessions

  class RefreshTokenRepository {
    var rows: Table

    constructor ()
      ensures rows == map[]
    {
      rows := map[];
    }

    method Create(id: Id, userId: Id, tokenHash: string, expiresAt: int) returns (newId: Id)
      requires id !in rows
      modifies this
      ensures rows == TokenTable.Create(old(rows), id, userId, tokenHash, expiresAt) && newId == id
    {
      rows := rows[id := RefreshToken(userId, tokenHash, expiresAt, None, None, |rows|)];
      newId := id;
    }

    method FindById(id: Id) returns (row: Option<RefreshToken>)
      ensures row.Some? <==> id in rows
      ensures row.Some? ==> row.value == rows[id]
    {
      row := if id in rows then Some(rows[id]) else None;
    }

    method Revoke(id: Id, replacedById: Option<Id>, now: int)
      requires id in rows
      modifies this
      ensures rows == TokenTable.Revoke(old(rows), id, replacedById, now)
    {
      rows := rows[id := rows[id].(revokedAt := Some(now))];
      if replacedById.Some? {
        rows := rows[id := rows[id].(replacedById := replacedById)];
      }
    }

    method RevokeAllForUser(userId: Id, now: int)
      modifies this
      ensures rows == TokenTable.RevokeAllForUser(old(rows), userId, now)
    {
      rows := map id | id in rows ::
        if rows[id].userId == userId && rows[id].revokedAt.None?
        then rows[id].(revokedAt := Some(now)) else rows[id];
    }
  }

  class RefreshTokenService {
    const repository: RefreshTokenRepository
    const config: Config

    constructor (repository: RefreshTokenRepository, config: Config)
      ensures this.repository == repository && this.config == config
    {
      this.repository := repository;
      this.config := config;
    }

    method Issue(userId: Id, g: Grant, now: int) returns (raw: string)
      requires Drawn(repository.rows, g)
      modifies repository
      ensures repository.rows == Sessions.Issue(config, old(repository.rows), userId, g, now)
      ensures raw == RawToken(g)
    {
      var id := repository.Create(g.id, userId, config.sha256(g.secret), now + config.ttl);
      raw := id + "." + g.secret;
    }

    method Rotate(raw: string, g: Grant, now: int) returns (r: Rotation)
      requires Drawn(repository.rows, g)
      modifies repository
      ensures (repository.rows, r) == Sessions.Rotate(config, old(repository.rows), raw, g, now)
    {
      ParseRaw(repository.rows, g);
      var parsed := Parse(raw);
      if parsed.None? {
        return Refused(Malformed);
      }
      var existing := repository.FindById(parsed.value.id);
      if existing.None? {
        return Refused(Unknown);
      }
      var row := existing.value;
      if row.revokedAt.Some? {
        repository.RevokeAllForUser(row.userId, now);
        return Refused(Reused);
      }
      if row.expiresAt < now {
        return Refused(Expired);
      }
      if config.sha256(parsed.value.secret) != row.tokenHash {
        return Refused(BadSecret);
      }
      var token := Issue(row.userId, g, now);
      var newId := Parse(token).value.id;
      repository.Revoke(parsed.value.id, Some(newId), now);
      return Rotated(row.userId, parsed.value.id, newId, token);
    }

    method Revoke(raw: string, now: int)
      modifies repository
      ensures repository.rows == Logout(old(repository.rows), raw, now)
    {
      var parsed := Parse(raw);
      if parsed.None? {
        return;
      }
      var existing := repository.FindById(parsed.value.id);
      if existing.Some? && existing.value.revokedAt.None? {
        repository.Revoke(parsed.value.id, None, now);
      }
    }

    method RevokeAll(userId: Id, now: int)
      modifies repository
      ensures repository.rows == TokenTable.RevokeAllForUser(old(repository.rows), userId, now)
    {
      repository.RevokeAllForUser(userId, now);
    }
  }
}
