/** TwoFactorRepository and TwoFactorService, updating the recovery codes and the accounts in place and
    proved against the functions of `SecondFactor`. */
module TwoFactor {
  import opened Text
  import Base32
  import opened Totp
  import opened TokenTable
  import opened Accounts
  import opened SecondFactor
  import opened UserAccounts

  class TwoFactorRepository {
    var rows: Codes

    constructor ()
      ensures rows == map[]
    {
      rows := map[];
    }

    /** One transaction: delete, then insert; the ids are the ones the database draws. */
    method ReplaceCodes(userId: Id, ids: seq<Id>, hashes: seq<string>)
      requires |ids| == |hashes| && NoRepeats(ids)
      modifies this
      ensures rows == SecondFactor.ReplaceCodes(old(rows), userId, ids, hashes)
    {
      DeleteAllForUser(userId);
      rows := rows + Inserted(userId, ids, hashes);
    }

    method FindUnusedForUser(userId: Id, order: seq<Id>) returns (codes: seq<(Id, string)>)
      requires Lists(order, Unused(rows, userId))
      ensures |codes| == |order|
      ensures forall i :: 0 <= i < |order| ==>
                order[i] in rows && codes[i] == (order[i], rows[order[i]].codeHash)
    {
      assert forall i :: 0 <= i < |order| ==> order[i] in order;
      codes := seq(|order|, i requires 0 <= i < |order| && order[i] in rows reads this =>
        (order[i], rows[order[i]].codeHash));
    }

    method MarkUsed(id: Id, now: int)
      requires id in rows
      modifies this
      ensures rows == SecondFactor.MarkUsed(old(rows), id, now)
    {
      rows := rows[id := rows[id].(usedAt := Some(now))];
    }

    method DeleteAllForUser(userId: Id)
      modifies this
      ensures rows == SecondFactor.DeleteAllForUser(old(rows), userId)
    {
      rows := map id | id in rows && rows[id].userId != userId :: rows[id];
    }
  }

  class TwoFactorService {
    const users: UsersService
    const repository: TwoFactorRepository
    const factors: Factors

    constructor (users: UsersService, repository: TwoFactorRepository, factors: Factors)
      ensures this.users == users && this.repository == repository && this.factors == factors
    {
      this.users, this.repository, this.factors := users, repository, factors;
    }

    /** The new secret, or nothing when the update throws for want of a row. */
    method Setup(userId: Id, random: seq<Base32.Byte>) returns (secret: Option<string>)
      requires users.repository.Valid()
      modifies users.repository
      ensures users.repository.Valid()
      ensures if userId in old(users.repository.rows) then
                && secret == Some(Base32.Encoded(random))
                && users.repository.rows == SetTwoFactorSecret(old(users.repository.rows), userId, secret)
              else secret == None && users.repository.rows == old(users.repository.rows)
    {
      var encoded := Base32.Base32Encode(random);
      var ok := users.SetTwoFactorSecret(userId, Some(encoded));
      secret := if ok then Some(encoded) else None;
    }

    method Enable(userId: Id, code: string, ids: seq<Id>, hashes: seq<string>, now: int) returns (r: Enrolment)
      requires users.repository.Valid() && Fresh(repository.rows, ids, hashes)
      modifies users.repository, repository
      ensures users.repository.Valid()
      ensures (users.repository.rows, repository.rows, r)
           == SecondFactor.Enable(factors, old(users.repository.rows), old(repository.rows),
                                userId, code, ids, hashes, now)
    {
      hide Verified, SecondFactor.ReplaceCodes;
      var user := users.FindEntityById(userId);
      if user.None? {
        return NoUser;
      }
      if !HasSecret(user.value) {
        return NoSecret;
      }
      var valid := VerifyTotp(factors.hmac, user.value.twoFactorSecret.value, code, WINDOW, now);
      match valid {
        case RangeError => return Broken;
        case Ok(ok) =>
          if !ok {
            return BadCode;
          }
      }
      var _ := users.SetTwoFactorEnabled(userId, true);
      repository.ReplaceCodes(userId, ids, hashes);
      return Enabled;
    }

    method Disable(userId: Id, code: string, order: seq<Id>, now: int) returns (r: Enrolment)
      requires users.repository.Valid() && Lists(order, Unused(repository.rows, userId))
      modifies users.repository, repository
      ensures users.repository.Valid()
      ensures var (users', codes', r', v) :=
                SecondFactor.Disable(factors, old(users.repository.rows), old(repository.rows),
                                     userId, code, order, now);
              users.repository.rows == users' && repository.rows == codes' && r == r'
    {
      hide SecondFactor.VerifyCode, Lists, SecondFactor.DeleteAllForUser;
      var user := users.FindEntityById(userId);
      if user.None? {
        return NoUser;
      }
      if !user.value.twoFactorEnabled {
        return NotEnabled;
      }
      var v := VerifyCode(userId, user.value, code, order, now);
      if v.Failed? {
        return Broken;
      }
      if v.Denied? {
        return BadCode;
      }
      var _ := users.SetTwoFactorEnabled(userId, false);
      repository.DeleteAllForUser(userId);
      return Disabled;
    }

    method VerifyCode(userId: Id, user: User, code: string, order: seq<Id>, now: int) returns (v: Verification)
      requires Lists(order, Unused(repository.rows, userId))
      modifies repository
      ensures (repository.rows, v)
           == SecondFactor.VerifyCode(factors, old(repository.rows), userId, user, code, order, now)
    {
      hide Verified, Trim, Lower, SixDigits;
      if !HasSecret(user) {
        return Denied;
      }
      var normalized := Trim(code);
      if SixDigits(normalized) {
        var valid := VerifyTotp(factors.hmac, user.twoFactorSecret.value, normalized, WINDOW, now);
        match valid {
          case RangeError => return Failed;
          case Ok(ok) =>
            if ok {
              return ByTotp;
            }
        }
      }
      v := ConsumeRecoveryCode(userId, Lower(normalized), order, now);
    }

    method ConsumeRecoveryCode(userId: Id, candidate: string, order: seq<Id>, now: int) returns (v: Verification)
      requires Lists(order, Unused(repository.rows, userId))
      modifies repository
      ensures (repository.rows, v)
           == Consume(factors.argon2, old(repository.rows), userId, order, candidate, now)
    {
      var codes := repository.FindUnusedForUser(userId, order);
      assert forall k :: 0 <= k < |order| ==> order[k] in order;
      for i := 0 to |codes|
        invariant repository.rows == old(repository.rows)
        invariant FirstMatch(factors.argon2, repository.rows, order, candidate)
               == FirstMatch(factors.argon2, repository.rows, order[i..], candidate)
      {
        match factors.argon2(codes[i].1, candidate) {
          case Throws => return Failed;
          case Mismatch =>
          case Match =>
            repository.MarkUsed(codes[i].0, now);
            return ByRecovery(codes[i].0);
        }
      }
      return Denied;
    }
  }
}
