/** The users table and the account operations of `users.service.ts` and of
    `AuthService.validateCredentials`: password checks, the failure counter and the lock.
    argon2 is a parameter that may throw, as it does on a malformed hash. */
module Accounts {
  import opened Text
  import opened TokenTable

  datatype Verdict = Match | Mismatch | Throws

  type Argon2 = (string, string) -> Verdict

  datatype User = User(
    email: string,
    passwordHash: string,
    isActive: bool,
    twoFactorEnabled: bool,
    twoFactorSecret: Option<string>,
    failedLoginAttempts: nat,
    lockedUntil: Option<int>,
    deleted: bool)

  type Users = map<Id, User>

  /** `max` failed attempts lock the account for `lockMs` milliseconds. */
  datatype Lockout = Lockout(max: nat, lockMs: nat)

  function FindById(users: Users, id: Id): Option<User> {
    if id in users && !users[id].deleted then Some(users[id]) else None
  }

  predicate HasEmail(users: Users, id: Id, email: string) {
    id in users && users[id].email == email && !users[id].deleted
  }

  /** `findFirst` by email among the rows not deleted; the email column is unique. */
  ghost function FindByEmail(users: Users, email: string): (r: Option<Id>)
    ensures r.Some? ==> HasEmail(users, r.value, email)
    ensures r.None? ==> forall id :: !HasEmail(users, id, email)
  {
    if exists id :: HasEmail(users, id, email) then
      var id :| HasEmail(users, id, email);
      Some(id)
    else None
  }

  ghost predicate UniqueEmails(users: Users) {
    forall a, b :: a in users && b in users && users[a].email == users[b].email ==> a == b
  }

  function RegisterFailedLogin(users: Users, id: Id): Users
    requires id in users
  {
    users[id := users[id].(failedLoginAttempts := users[id].failedLoginAttempts + 1)]
  }

  function LockAccount(users: Users, id: Id, until: int): Users
    requires id in users
  {
    users[id := users[id].(lockedUntil := Some(until))]
  }

  function ClearLoginFailures(users: Users, id: Id): Users
    requires id in users
  {
    users[id := users[id].(failedLoginAttempts := 0, lockedUntil := None)]
  }

  function SetPassword(users: Users, id: Id, passwordHash: string): Users
    requires id in users
  {
    users[id := users[id].(passwordHash := passwordHash, failedLoginAttempts := 0, lockedUntil := None)]
  }

  function SetTwoFactorSecret(users: Users, id: Id, secret: Option<string>): Users
    requires id in users
  {
    users[id := users[id].(twoFactorSecret := secret)]
  }

  function SetTwoFactorEnabled(users: Users, id: Id, enabled: bool): Users
    requires id in users
  {
    users[id := users[id].(twoFactorEnabled := enabled,
                           twoFactorSecret := if enabled then users[id].twoFactorSecret else None)]
  }

  function HandleFailedLogin(l: Lockout, users: Users, id: Id, now: int): Users
    requires id in users
  {
    var counted := RegisterFailedLogin(users, id);
    if counted[id].failedLoginAttempts >= l.max then LockAccount(counted, id, now + l.lockMs) else counted
  }

  /** How a login attempt ended; the password was checked in the last two cases only. */
  datatype Credentials =
    | NoAccount
    | Locked(id: Id)
    | Wrong(id: Id)
    | Valid(id: Id, entity: User)

  ghost function ValidateCredentials(
      argon2: Argon2, l: Lockout, users: Users, email: string, password: string, now: int): (Users, Credentials)
  {
    match FindByEmail(users, email)
    case None => (users, NoAccount)
    case Some(id) =>
      var entity := users[id];
      if !entity.isActive then (users, NoAccount)
      else if entity.lockedUntil.Some? && entity.lockedUntil.value > now then (users, Locked(id))
      else if argon2(entity.passwordHash, password) != Match then
        (HandleFailedLogin(l, users, id, now), Wrong(id))
      else if entity.failedLoginAttempts > 0 || entity.lockedUntil.Some? then
        (ClearLoginFailures(users, id), Valid(id, entity))
      else (users, Valid(id, entity))
  }

  /** A password was checked for this account. */
  predicate Checked(c: Credentials, id: Id) {
    (c.Wrong? || c.Valid?) && c.id == id
  }

  // ----- the lock ------------------------------------------------------------

  /** An account carries a lock instant exactly when its counter has reached the threshold. */
  ghost predicate LockConsistent(l: Lockout, u: User) {
    u.lockedUntil.Some? <==> u.failedLoginAttempts >= l.max
  }

  ghost predicate LocksConsistent(l: Lockout, users: Users) {
    forall id :: id in users ==> LockConsistent(l, users[id])
  }

  /** An account after one more failed password check at `now`. */
  function Punished(l: Lockout, u: User, now: int): User {
    var n := u.failedLoginAttempts + 1;
    u.(failedLoginAttempts := n, lockedUntil := if n >= l.max then Some(now + l.lockMs) else u.lockedUntil)
  }

  function Cleared(u: User): User {
    u.(failedLoginAttempts := 0, lockedUntil := None)
  }

  /** The account is there, active, and not under a lock at `now`. */
  predicate Open(users: Users, id: Id, now: int) {
    && id in users && !users[id].deleted && users[id].isActive
    && (users[id].lockedUntil.Some? ==> users[id].lockedUntil.value <= now)
  }

  /** Every outcome of a login attempt. Without an account, or for an inactive one, nothing happens; under
      a lock, nothing happens either; otherwise the password is checked: a wrong one, or a throwing
      argon2, is counted, and from `max` failures on locks for the lock length from now; the right one
      clears counter and lock. */
  lemma {:induction false} CredentialsExact(
      argon2: Argon2, l: Lockout, users: Users, email: string, password: string, now: int, id: Id)
    requires UniqueEmails(users)
    ensures var (users', c) := ValidateCredentials(argon2, l, users, email, password, now);
            && ((forall u :: u in users && users[u].email == email ==> users[u].deleted || !users[u].isActive) ==>
                  c == NoAccount && users' == users)
            && (id in users && users[id].email == email && !users[id].deleted && users[id].isActive ==>
                  if !Open(users, id, now) then c == Locked(id) && users' == users
                  else if argon2(users[id].passwordHash, password) == Match then
                    c == Valid(id, users[id])
                    && users' == users[id := users[id].(failedLoginAttempts := 0, lockedUntil := None)]
                  else
                    var n := users[id].failedLoginAttempts + 1;
                    c == Wrong(id)
                    && users' == users[id := users[id].(
                         failedLoginAttempts := n,
                         lockedUntil := if n >= l.max then Some(now + l.lockMs) else users[id].lockedUntil)])
  {
    if HasEmail(users, id, email) {
      assert FindByEmail(users, email) == Some(id);
    }
  }

  /** The attempt checks the password of `id`: it is the account found, and it is open. */
  ghost predicate Attempted(users: Users, email: string, id: Id, now: int) {
    FindByEmail(users, email) == Some(id) && Open(users, id, now)
  }

  /** What one login attempt does to each account: nothing unless its password is checked; then a failure
      counts and locks from the threshold on, and a success clears. */
  lemma {:induction false} AttemptEffect(
      argon2: Argon2, l: Lockout, users: Users, email: string, password: string, now: int, id: Id)
    requires id in users
    ensures var (users', c) := ValidateCredentials(argon2, l, users, email, password, now);
            var right := argon2(users[id].passwordHash, password) == Match;
            && users'.Keys == users.Keys
            && (Checked(c, id) <==> Attempted(users, email, id, now))
            && (Checked(c, id) ==> (c.Valid? <==> right))
            && users'[id] == (if !Attempted(users, email, id, now) then users[id]
                              else if right then Cleared(users[id])
                              else Punished(l, users[id], now))
  {
  }
}
