/** What every trace keeps about accounts: emails stay unique, a password changes only when one is set,
    and only the administrator changes email, active flag and deletion. */
module AccountSafety {
  import opened Text
  import Totp
  import opened TokenTable
  import opened Sessions
  import opened Accounts
  import opened SecondFactor
  import opened Resets
  import opened Auth
  import opened World
  import opened LockoutSafety

  // ----- unique emails -------------------------------------------------------

  /** The accounts are the same and so are their emails. */
  ghost predicate SameEmails(users: Users, users': Users) {
    users'.Keys == users.Keys && forall id :: id in users ==> users'[id].email == users[id].email
  }

  lemma {:induction false} SameEmailsUnique(users: Users, users': Users)
    requires SameEmails(users, users') && UniqueEmails(users)
    ensures UniqueEmails(users')
  {
  }

  lemma {:induction false} LoginEmails(e: Env, s: Store, email: string, password: string, g: Grant, now: int)
    ensures SameEmails(s.users, Login(e, s, email, password, g, now).0.users)
  {
    hide Issue, ValidateCredentials;
    LoginKeys(e, s, email, password, g, now);
    forall id | id in s.users
      ensures Login(e, s, email, password, g, now).0.users[id].email == s.users[id].email
    {
      AttemptEffect(e.factors.argon2, e.lockout, s.users, email, password, now, id);
    }
  }

  lemma {:induction false} ResetEmails(e: Env, s: Store, raw: string, newHash: string, now: int)
    ensures SameEmails(s.users, Reset(e, s, raw, newHash, now).0.users)
  {
    hide RevokeAllForUser, InvalidateAllForUser, RedeemedRow;
  }

  lemma {:induction false} FactorEmails(e: Env, w: World, c: Call)
    requires Admissible(e, w, c)
    requires c.request.FactorSetup? || c.request.FactorEnable? || c.request.FactorDisable?
    ensures SameEmails(w.store.users, Step(e, w, c).0.store.users)
  {
    FactorUsers(e, w, c);
    hide Step, Admissible;
  }

  lemma {:induction false} CreateUnique(s: Store, email: string, hash: string, active: Option<bool>, id: Id)
    requires UniqueEmails(s.users) && id !in s.users
    ensures UniqueEmails(CreateUser(s, email, hash, active, id).0.users)
  {
  }

  lemma {:induction false} UpdateUnique(s: Store, id: Id, email: Option<string>, active: Option<bool>)
    requires UniqueEmails(s.users)
    ensures UniqueEmails(UpdateUser(s, id, email, active).0.users)
  {
  }

  lemma {:induction false} RegisterUsers(e: Env, s: Store, email: string, hash: string, id: Id, g: Grant, now: int)
    ensures Register(e, s, email, hash, id, g, now).0.users == CreateUser(s, email, hash, None, id).0.users
  {
    hide Issue;
  }

  lemma {:induction false} OwnEmails(e: Env, w: World, c: Call)
    requires Admissible(e, w, c) && UniqueEmails(w.store.users)
    requires c.request.PasswordChange? || c.request.UserRemoval?
    ensures UniqueEmails(Step(e, w, c).0.store.users)
  {
    hide RevokeAllForUser, Register, CreateUser, Login, LoginSecondFactor, Refresh, RequestReset,
         Auth.Reset, Setup, EnableTwoFactor, DisableTwoFactor, UpdateUser, Logout;
    assert SameEmails(w.store.users, Step(e, w, c).0.store.users);
  }

  lemma {:induction false} StepUnique(e: Env, w: World, c: Call)
    requires Admissible(e, w, c) && UniqueEmails(w.store.users)
    ensures UniqueEmails(Step(e, w, c).0.store.users)
  {
    var s := w.store;
    hide UniqueEmails, SameEmails, Drawn, Lists, Fresh, Register, CreateUser, Login, LoginSecondFactor, Refresh, Reset,
         EnableTwoFactor, DisableTwoFactor, UpdateUser, RevokeAllForUser, Logout, FindByEmail, FindByHash;
    match c.request
    case SignUp(email, hash, id, g) =>
      CreateUnique(s, email, hash, None, id);
      RegisterUsers(e, s, email, hash, id, g, c.at);
    case UserCreation(email, hash, active, id) => CreateUnique(s, email, hash, active, id);
    case SignIn(email, password, g) =>
      LoginEmails(e, s, email, password, g, c.at);
      SameEmailsUnique(s.users, Login(e, s, email, password, g, c.at).0.users);
    case SecondStep(token, code, order, g) =>
      SecondStepUsers(e, s, VerifyJwt(w, token, c.at), code, order, g, c.at);
    case PasswordChange(_, _, _) => OwnEmails(e, w, c);
    case Renewal(raw, g) => RenewalUsers(e, s, raw, g, c.at);
    case ResetRedeem(raw, newHash) =>
      ResetEmails(e, s, raw, newHash, c.at);
      SameEmailsUnique(s.users, Reset(e, s, raw, newHash, c.at).0.users);
    case UserUpdate(id, email, active) => UpdateUnique(s, id, email, active);
    case UserRemoval(_) => OwnEmails(e, w, c);
    case FactorSetup(_, _) => FactorEmails(e, w, c); SameEmailsUnique(s.users, Step(e, w, c).0.store.users);
    case FactorEnable(_, _, _, _) => FactorEmails(e, w, c); SameEmailsUnique(s.users, Step(e, w, c).0.store.users);
    case FactorDisable(_, _, _) => FactorEmails(e, w, c); SameEmailsUnique(s.users, Step(e, w, c).0.store.users);
    case _ =>
  }

  lemma {:induction false} TraceUnique(e: Env, ws: seq<World>, cs: seq<Call>, j: nat)
    requires Trace(e, ws, cs) && j < |ws| && UniqueEmails(ws[0].store.users)
    ensures UniqueEmails(ws[j].store.users)
    decreases j
  {
    if j == 0 {
    } else {
      hide Step, UniqueEmails, Admissible;
      TraceUnique(e, ws, cs, j - 1);
      TraceStep(e, ws, cs, j - 1);
      StepUnique(e, ws[j - 1], cs[j - 1]);
    }
  }

  // ----- who changes an account ----------------------------------------------

  /** The password hash the call stores for `u`, if it stores one. */
  ghost function NewHash(e: Env, w: World, c: Call, u: Id): Option<string>
    requires Admissible(e, w, c)
  {
    match c.request
    case SignUp(_, hash, id, _) => if id == u && Step(e, w, c).1.Session? then Some(hash) else None
    case UserCreation(_, hash, _, id) => if id == u && Step(e, w, c).1.Done? then Some(hash) else None
    case PasswordChange(v, _, hash) => if v == u && Step(e, w, c).1.Done? then Some(hash) else None
    case ResetRedeem(raw, hash) =>
      if Step(e, w, c).1.Done? && w.store.resets[RedeemedRow(e, w.store, raw, c.at).value].userId == u
      then Some(hash) else None
    case _ => None
  }

  /** The administrator edits or removes the account. */
  predicate Edits(c: Call, u: Id) {
    (c.request.UserUpdate? || c.request.UserRemoval?) && c.request.userId == u
  }

  /** The account `a'` is `a` with the new password, if any; unless edited it keeps email, active flag
      and deletion. */
  ghost predicate Follows(a: User, a': User, hash: Option<string>, edited: bool) {
    && a'.passwordHash == (if hash.Some? then hash.value else a.passwordHash)
    && (!edited ==> a'.email == a.email && a'.isActive == a.isActive && a'.deleted == a.deleted)
  }

  lemma {:induction false} LoginFollows(
      e: Env, s: Store, email: string, password: string, g: Grant, now: int, u: Id)
    requires u in s.users
    ensures var users' := Login(e, s, email, password, g, now).0.users;
            u in users' && Follows(s.users[u], users'[u], None, false)
  {
    LoginKeys(e, s, email, password, g, now);
    AttemptEffect(e.factors.argon2, e.lockout, s.users, email, password, now, u);
    hide ValidateCredentials, Issue;
  }

  lemma {:induction false} ResetFollows(e: Env, s: Store, raw: string, newHash: string, now: int, u: Id)
    requires u in s.users
    ensures var (s', a) := Reset(e, s, raw, newHash, now);
            var mine := a.Done? && s.resets[RedeemedRow(e, s, raw, now).value].userId == u;
            u in s'.users && Follows(s.users[u], s'.users[u], if mine then Some(newHash) else None, false)
  {
    hide RevokeAllForUser, InvalidateAllForUser;
  }

  lemma {:induction false} PasswordFollows(
      e: Env, s: Store, v: Id, current: string, newHash: string, now: int, u: Id)
    requires u in s.users
    ensures var (s', a) := ChangePassword(e, s, v, current, newHash, now);
            var mine := a.Done? && v == u;
            u in s'.users && Follows(s.users[u], s'.users[u], if mine then Some(newHash) else None, false)
  {
    hide RevokeAllForUser;
  }

  lemma {:induction false} FactorFollows(e: Env, w: World, c: Call, u: Id)
    requires Admissible(e, w, c) && u in w.store.users
    requires c.request.FactorSetup? || c.request.FactorEnable? || c.request.FactorDisable?
    ensures var users' := Step(e, w, c).0.store.users;
            u in users' && Follows(w.store.users[u], users'[u], None, false)
  {
    FactorUsers(e, w, c);
    hide Step, Admissible;
  }

  lemma {:induction false} AdminFollows(e: Env, w: World, c: Call, u: Id)
    requires Admissible(e, w, c) && u in w.store.users
    requires c.request.SignUp? || c.request.UserCreation? || c.request.UserUpdate? || c.request.UserRemoval?
    ensures var users' := Step(e, w, c).0.store.users;
            u in users' && Follows(w.store.users[u], users'[u], None, Edits(c, u))
  {
    hide Drawn, Issue, FindByEmail, Login, LoginSecondFactor, ChangePassword, Refresh, RequestReset,
         Auth.Reset, Setup, EnableTwoFactor, DisableTwoFactor, Logout, RevokeAllForUser;
  }

  lemma {:induction false} SameFollows(a: User)
    ensures Follows(a, a, None, false)
  {
  }

  /** What one call does to one account's password and identity. */
  lemma {:induction false} StepAccount(e: Env, w: World, c: Call, u: Id)
    requires Admissible(e, w, c) && u in w.store.users
    ensures var users' := Step(e, w, c).0.store.users;
            u in users' && Follows(w.store.users[u], users'[u], NewHash(e, w, c, u), Edits(c, u))
  {
    var s := w.store;
    hide Follows, Drawn, Lists, Fresh, Register, CreateUser, Login, LoginSecondFactor, ChangePassword, Refresh, Reset,
         EnableTwoFactor, DisableTwoFactor, Setup, UpdateUser, RemoveUser, RevokeAllForUser, Logout, FindByEmail,
         FindByHash, RedeemedRow;
    match c.request
    case SignUp(_, _, _, _) => AdminFollows(e, w, c, u);
    case UserCreation(_, _, _, _) => AdminFollows(e, w, c, u);
    case SignIn(email, password, g) => LoginFollows(e, s, email, password, g, c.at, u);
    case SecondStep(token, code, order, g) =>
      SecondStepUsers(e, s, VerifyJwt(w, token, c.at), code, order, g, c.at);
      SameFollows(s.users[u]);
    case PasswordChange(v, current, newHash) => PasswordFollows(e, s, v, current, newHash, c.at, u);
    case Renewal(raw, g) => RenewalUsers(e, s, raw, g, c.at); SameFollows(s.users[u]);
    case ResetRedeem(raw, newHash) => ResetFollows(e, s, raw, newHash, c.at, u);
    case FactorSetup(_, _) => FactorFollows(e, w, c, u);
    case FactorEnable(_, _, _, _) => FactorFollows(e, w, c, u);
    case FactorDisable(_, _, _) => FactorFollows(e, w, c, u);
    case UserUpdate(_, _, _) => AdminFollows(e, w, c, u);
    case UserRemoval(_) => AdminFollows(e, w, c, u);
    case _ => SameFollows(s.users[u]);
  }

  /** The call that sets a password leaves the account with it. */
  lemma {:induction false} HashStored(e: Env, w: World, c: Call, u: Id)
    requires Admissible(e, w, c) && NewHash(e, w, c, u).Some?
    ensures var users' := Step(e, w, c).0.store.users;
            u in users' && users'[u].passwordHash == NewHash(e, w, c, u).value
  {
    hide Drawn, Issue, RevokeAllForUser, InvalidateAllForUser, Resets.MarkUsed, UniqueEmails, Login,
         LoginSecondFactor, Refresh, RequestReset, Setup, EnableTwoFactor, DisableTwoFactor, UpdateUser,
         RemoveUser, Logout;
  }

  /** No password is set for `u` and its account is not edited from call `i` up to call `j`. */
  ghost predicate Untouched(e: Env, ws: seq<World>, cs: seq<Call>, i: nat, j: nat, u: Id)
    requires Trace(e, ws, cs) && j <= |cs|
  {
    forall k :: i <= k < j ==> NewHash(e, ws[k], cs[k], u).None? && !Edits(cs[k], u)
  }

  /** An untouched account keeps password, email, active flag and deletion along every trace. */
  lemma {:induction false} TraceAccount(e: Env, ws: seq<World>, cs: seq<Call>, i: nat, j: nat, u: Id)
    requires Trace(e, ws, cs) && i <= j <= |cs| && Untouched(e, ws, cs, i, j, u)
    requires u in ws[i].store.users
    ensures u in ws[j].store.users && Follows(ws[i].store.users[u], ws[j].store.users[u], None, false)
    decreases j
  {
    hide Step, NewHash, Admissible;
    if i == j {
    } else {
      TraceStep(e, ws, cs, j - 1);
      TraceAccount(e, ws, cs, i, j - 1, u);
      StepAccount(e, ws[j - 1], cs[j - 1], u);
    }
  }
}
