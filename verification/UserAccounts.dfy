/** UsersRepository and UsersService: the users table is updated in place, one row at a time, and the
    account operations are proved against the functions of `Accounts`. */
module UserAccounts {
  import opened Text
  import opened TokenTable
  import opened Accounts
  import opened Auth

  /** A user row together with its id. */
  datatype Entity = Entity(id: Id, row: User)

  datatype Counting = Zero | Increment

  /** The fields an update writes; the others stay. */
  datatype UserPatch = UserPatch(
    nameonly email: Option<string> := None,
    nameonly passwordHash: Option<string> := None,
    nameonly isActive: Option<bool> := None,
    nameonly twoFactorEnabled: Option<bool> := None,
    nameonly twoFactorSecret: Option<Option<string>> := None,
    nameonly failedLoginAttempts: Option<Counting> := None,
    nameonly lockedUntil: Option<Option<int>> := None,
    nameonly deleted: Option<bool> := None)

  function OrElse<T>(given: Option<T>, stored: T): T {
    if given.Some? then given.value else stored
  }

  function Patched(u: User, p: UserPatch): User {
    User(
      OrElse(p.email, u.email),
      OrElse(p.passwordHash, u.passwordHash),
      OrElse(p.isActive, u.isActive),
      OrElse(p.twoFactorEnabled, u.twoFactorEnabled),
      OrElse(p.twoFactorSecret, u.twoFactorSecret),
      (match p.failedLoginAttempts
       case None => u.failedLoginAttempts
       case Some(Zero) => 0
       case Some(Increment) => u.failedLoginAttempts + 1),
      OrElse(p.lockedUntil, u.lockedUntil),
      OrElse(p.deleted, u.deleted))
  }

  /** Another row holds the email, deleted or not: the unique column refuses the write. */
  predicate Occupied(users: Users, id: Id, email: string) {
    exists u :: u in users && u != id && users[u].email == email
  }

  class UsersRepository {
    var rows: Users

    ghost predicate Valid()
      reads this
    {
      UniqueEmails(rows)
    }

    constructor ()
      ensures Valid() && rows == map[]
    {
      rows := map[];
    }

    method Create(id: Id, email: string, passwordHash: string, isActive: bool) returns (ok: bool)
      requires Valid() && id !in rows
      modifies this
      ensures Valid()
      ensures ok <==> !Occupied(old(rows), id, email)
      ensures rows == if ok then old(rows)[id := User(email, passwordHash, isActive, false, None, 0, None, false)]
                      else old(rows)
    {
      ok := !Occupied(rows, id, email);
      if ok {
        rows := rows[id := User(email, passwordHash, isActive, false, None, 0, None, false)];
      }
    }

    method FindById(id: Id) returns (user: Option<User>)
      ensures user == Accounts.FindById(rows, id)
    {
      user := if id in rows && !rows[id].deleted then Some(rows[id]) else None;
    }

    method FindByEmail(email: string) returns (user: Option<Entity>)
      requires Valid()
      ensures user == match Accounts.FindByEmail(rows, email)
                      case None => None
                      case Some(id) => Some(Entity(id, rows[id]))
    {
      if id :| id in rows && rows[id].email == email && !rows[id].deleted {
        assert HasEmail(rows, id, email);
        user := Some(Entity(id, rows[id]));
      } else {
        assert forall id :: !HasEmail(rows, id, email);
        user := None;
      }
    }

    /** Fails, as the database call throws, when there is no such row or the email is taken. */
    method Update(id: Id, patch: UserPatch) returns (ok: bool)
      requires Valid()
      modifies this
      ensures Valid()
      ensures ok <==> id in old(rows) && (patch.email.Some? ==> !Occupied(old(rows), id, patch.email.value))
      ensures rows == if ok then old(rows)[id := Patched(old(rows)[id], patch)] else old(rows)
    {
      ok := id in rows && (patch.email.Some? ==> !Occupied(rows, id, patch.email.value));
      if ok {
        rows := rows[id := Patched(rows[id], patch)];
      }
    }

    method SoftDelete(id: Id) returns (ok: bool)
      requires Valid()
      modifies this
      ensures Valid() && (ok <==> id in old(rows))
      ensures rows == if ok then old(rows)[id := old(rows)[id].(isActive := false, deleted := true)] else old(rows)
    {
      ok := Update(id, UserPatch(isActive := Some(false), deleted := Some(true)));
    }
  }

  class UsersService {
    const repository: UsersRepository

    constructor (repository: UsersRepository)
      ensures this.repository == repository
    {
      this.repository := repository;
    }

    /** The users table alone; the other tables play no part here. */
    ghost function Tables(): Store
      reads repository
    {
      Store(repository.rows, map[], map[], map[])
    }

    /** The draws of the database and of argon2 are the id and the hash. */
    method Create(email: string, passwordHash: string, isActive: Option<bool>, id: Id) returns (a: Answer)
      requires repository.Valid() && id !in repository.rows
      modifies repository
      ensures repository.Valid()
      ensures (Tables(), a) == CreateUser(old(Tables()), email, passwordHash, isActive, id)
    {
      var existing := repository.FindByEmail(email);
      if existing.Some? {
        return Rejected(Conflict);
      }
      var ok := repository.Create(id, email, passwordHash, if isActive.Some? then isActive.value else true);
      a := if ok then Done else Rejected(ServerError);
    }

    method Update(id: Id, email: Option<string>, isActive: Option<bool>) returns (a: Answer)
      requires repository.Valid()
      modifies repository
      ensures repository.Valid()
      ensures (Tables(), a) == UpdateUser(old(Tables()), id, email, isActive)
    {
      var user := repository.FindById(id);
      if user.None? {
        return Rejected(NotFound);
      }
      if email.Some? && email.value != "" && email.value != user.value.email {
        var taken := repository.FindByEmail(email.value);
        if taken.Some? {
          return Rejected(Conflict);
        }
      }
      var ok := repository.Update(id, UserPatch(email := email, isActive := isActive));
      a := if ok then Done else Rejected(ServerError);
    }

    method Remove(id: Id) returns (a: Answer)
      requires repository.Valid()
      modifies repository
      ensures repository.Valid()
      ensures (Tables(), a) == RemoveUser(old(Tables()), id)
    {
      var user := repository.FindById(id);
      if user.None? {
        return Rejected(NotFound);
      }
      var _ := repository.SoftDelete(id);
      return Done;
    }

    method FindEntityById(id: Id) returns (user: Option<User>)
      ensures user == Accounts.FindById(repository.rows, id)
    {
      user := repository.FindById(id);
    }

    method FindEntityByEmail(email: string) returns (user: Option<Entity>)
      requires repository.Valid()
      ensures user == match Accounts.FindByEmail(repository.rows, email)
                      case None => None
                      case Some(id) => Some(Entity(id, repository.rows[id]))
    {
      user := repository.FindByEmail(email);
    }

    /** The new count, or nothing when the update throws for want of a row. */
    method RegisterFailedLogin(id: Id) returns (attempts: Option<nat>)
      requires repository.Valid()
      modifies repository
      ensures repository.Valid()
      ensures if id in old(repository.rows) then
                && repository.rows == Accounts.RegisterFailedLogin(old(repository.rows), id)
                && attempts == Some(old(repository.rows)[id].failedLoginAttempts + 1)
              else repository.rows == old(repository.rows) && attempts == None
    {
      var ok := repository.Update(id, UserPatch(failedLoginAttempts := Some(Increment)));
      attempts := if ok then Some(repository.rows[id].failedLoginAttempts) else None;
    }

    method LockAccount(id: Id, until: int) returns (ok: bool)
      requires repository.Valid()
      modifies repository
      ensures repository.Valid() && (ok <==> id in old(repository.rows))
      ensures repository.rows == if ok then Accounts.LockAccount(old(repository.rows), id, until)
                                 else old(repository.rows)
    {
      ok := repository.Update(id, UserPatch(lockedUntil := Some(Some(until))));
    }

    method ClearLoginFailures(id: Id) returns (ok: bool)
      requires repository.Valid()
      modifies repository
      ensures repository.Valid() && (ok <==> id in old(repository.rows))
      ensures repository.rows == if ok then Accounts.ClearLoginFailures(old(repository.rows), id)
                                 else old(repository.rows)
    {
      ok := repository.Update(id, UserPatch(failedLoginAttempts := Some(Zero), lockedUntil := Some(None)));
    }

    method SetPassword(id: Id, passwordHash: string) returns (ok: bool)
      requires repository.Valid()
      modifies repository
      ensures repository.Valid() && (ok <==> id in old(repository.rows))
      ensures repository.rows == if ok then Accounts.SetPassword(old(repository.rows), id, passwordHash)
                                 else old(repository.rows)
    {
      ok := repository.Update(
        id,
        UserPatch(passwordHash := Some(passwordHash), failedLoginAttempts := Some(Zero), lockedUntil := Some(None)));
    }

    method SetTwoFactorSecret(id: Id, secret: Option<string>) returns (ok: bool)
      requires repository.Valid()
      modifies repository
      ensures repository.Valid() && (ok <==> id in old(repository.rows))
      ensures repository.rows == if ok then Accounts.SetTwoFactorSecret(old(repository.rows), id, secret)
                                 else old(repository.rows)
    {
      ok := repository.Update(id, UserPatch(twoFactorSecret := Some(secret)));
    }

    method SetTwoFactorEnabled(id: Id, enabled: bool) returns (ok: bool)
      requires repository.Valid()
      modifies repository
      ensures repository.Valid() && (ok <==> id in old(repository.rows))
      ensures repository.rows == if ok then Accounts.SetTwoFactorEnabled(old(repository.rows), id, enabled)
                                 else old(repository.rows)
    {
      ok := repository.Update(
        id,
        UserPatch(twoFactorEnabled := Some(enabled), twoFactorSecret := if enabled then None else Some(None)));
    }
  }
}
