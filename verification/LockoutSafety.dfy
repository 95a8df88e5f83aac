/** How many passwords can be tried on an account, over every trace. */
module LockoutSafety {
  import opened Words
  import opened Text
  import Base32
  import Totp
  import opened TokenTable
  import opened Sessions
  import opened Accounts
  import opened SecondFactor
  import opened Resets
  import opened Auth
  import opened World

  /** How a login attempt ended; `NoAccount` for every other call. */
  ghost function Attempt(e: Env, w: World, c: Call): Credentials {
    match c.request
    case SignIn(email, password, _) => LoginCheck(e, w.store, email, password, c.at).1
    case _ => NoAccount
  }

  /** The call is a login that reaches the password of `u`: `u` is the account of the email, active and not
      under a lock. */
  ghost predicate Tries(e: Env, w: World, c: Call, u: Id) {
    c.request.SignIn? && Attempted(w.store.users, c.request.email, u, c.at)
  }

  /** The call logs `u` in with the right password or sets a new one. */
  ghost predicate Forgives(e: Env, w: World, c: Call, u: Id)
    requires Admissible(e, w, c)
  {
    || (Tries(e, w, c, u) && e.factors.argon2(w.store.users[u].passwordHash, c.request.password) == Match)
    || (c.request.PasswordChange? && c.request.userId == u && Step(e, w, c).1.Done?)
    || (c.request.ResetRedeem? && Step(e, w, c).1.Done?
        && w.store.resets[RedeemedRow(e, w.store, c.request.raw, c.at).value].userId == u)
  }

  ghost predicate SameLock(u: User, u': User) {
    u'.failedLoginAttempts == u.failedLoginAttempts && u'.lockedUntil == u.lockedUntil
  }

  /** The lock state a call leaves the account `a` in. */
  ghost function AfterCall(e: Env, w: World, c: Call, u: Id, a: User): User
    requires Admissible(e, w, c)
  {
    if Forgives(e, w, c, u) then Cleared(a)
    else if Tries(e, w, c, u) then Punished(e.lockout, a, c.at)
    else a
  }

  lemma {:induction false} SignInLock(e: Env, w: World, c: Call, u: Id)
    requires Admissible(e, w, c) && u in w.store.users && c.request.SignIn?
    ensures var a, users' := w.store.users[u], Step(e, w, c).0.store.users;
            && u in users'
            && (Tries(e, w, c, u) && a.lockedUntil.Some? ==> a.lockedUntil.value <= c.at)
            && SameLock(AfterCall(e, w, c, u, a), users'[u])
  {
    AttemptEffect(e.factors.argon2, e.lockout, w.store.users, c.request.email, c.request.password, c.at, u);
    hide Drawn, Issue, ValidateCredentials;
  }

  lemma {:induction false} ResetLock(e: Env, s: Store, raw: string, newHash: string, now: int, u: Id)
    requires u in s.users
    ensures var (s', r) := Reset(e, s, raw, newHash, now);
            && u in s'.users
            && SameLock(if r.Done? && s.resets[RedeemedRow(e, s, raw, now).value].userId == u
                        then Cleared(s.users[u]) else s.users[u], s'.users[u])
  {
    hide RevokeAllForUser, InvalidateAllForUser;
  }

  lemma {:induction false} PasswordLock(e: Env, s: Store, v: Id, current: string, newHash: string, now: int, u: Id)
    requires u in s.users
    ensures var (s', r) := ChangePassword(e, s, v, current, newHash, now);
            && u in s'.users
            && SameLock(if r.Done? && v == u then Cleared(s.users[u]) else s.users[u], s'.users[u])
  {
    hide RevokeAllForUser;
  }

  /** At most the secret and the flag of `v` change. */
  ghost predicate FactorChange(users: Users, users': Users, v: Id) {
    users' == users
    || (v in users && v in users'
        && users' == users[v := users[v].(twoFactorSecret := users'[v].twoFactorSecret,
                                          twoFactorEnabled := users'[v].twoFactorEnabled)])
  }

  lemma {:induction false} SetupChange(s: Store, v: Id, random: seq<Base32.Byte>)
    ensures FactorChange(s.users, Setup(s, v, random).0.users, v)
  {
    hide Base32.Encoded;
  }

  lemma {:induction false} EnableChange(
      e: Env, s: Store, v: Id, code: string, ids: seq<Id>, hashes: seq<string>, now: int)
    requires Fresh(s.codes, ids, hashes)
    ensures var (s', a) := EnableTwoFactor(e, s, v, code, ids, hashes, now);
            if a.Done? then v in s.users && s'.users == SetTwoFactorEnabled(s.users, v, true) else s'.users == s.users
    ensures FactorChange(s.users, EnableTwoFactor(e, s, v, code, ids, hashes, now).0.users, v)
  {
    hide Fresh, ReplaceCodes, Totp.Verified;
  }

  lemma {:induction false} DisableChange(e: Env, s: Store, v: Id, code: string, order: seq<Id>, now: int)
    requires Listed(s, v, order)
    ensures var (s', a) := DisableTwoFactor(e, s, v, code, order, now);
            if a.Done? then v in s.users && s'.users == SetTwoFactorEnabled(s.users, v, false) else s'.users == s.users
    ensures FactorChange(s.users, DisableTwoFactor(e, s, v, code, order, now).0.users, v)
  {
    hide VerifyCode, DeleteAllForUser, Lists;
  }

  /** The calls that set up, enable or disable the second factor touch nothing else of any account. */
  lemma {:induction false} FactorUsers(e: Env, w: World, c: Call)
    requires Admissible(e, w, c)
    requires c.request.FactorSetup? || c.request.FactorEnable? || c.request.FactorDisable?
    ensures FactorChange(w.store.users, Step(e, w, c).0.store.users, c.request.userId)
  {
    hide FactorChange, Fresh, Lists, Setup, EnableTwoFactor, DisableTwoFactor;
    match c.request
    case FactorSetup(v, random) => SetupChange(w.store, v, random);
    case FactorEnable(v, code, ids, hashes) => EnableChange(e, w.store, v, code, ids, hashes, c.at);
    case FactorDisable(v, code, order) => DisableChange(e, w.store, v, code, order, c.at);
  }

  lemma {:induction false} FactorLock(users: Users, users': Users, v: Id, u: Id)
    requires FactorChange(users, users', v)
    ensures users'.Keys == users.Keys && (u in users ==> SameLock(users[u], users'[u]))
  {
  }

  lemma {:induction false} SecondStepUsers(
      e: Env, s: Store, payload: Option<Jwt>, code: string, order: seq<Id>, g: Grant, now: int)
    requires payload.Some? ==> Listed(s, payload.value.sub, order)
    ensures LoginSecondFactor(e, s, payload, code, order, g, now).0.users == s.users
  {
    hide VerifyCode, Issue, Listed;
  }

  lemma {:induction false} RenewalUsers(e: Env, s: Store, raw: string, g: Grant, now: int)
    requires Drawn(s.tokens, g)
    ensures Refresh(e, s, raw, g, now).0.users == s.users
  {
    hide Rotate, RevokeAllForUser, Drawn;
  }

  lemma {:induction false} OtherLock(e: Env, w: World, c: Call, u: Id)
    requires Admissible(e, w, c) && u in w.store.users && !c.request.SignIn?
    ensures !Tries(e, w, c, u)
    ensures var a, users' := w.store.users[u], Step(e, w, c).0.store.users;
            && u in users'
            && SameLock(AfterCall(e, w, c, u, a), users'[u])
  {
    hide Drawn, Listed, Fresh, VerifyCode, Refresh, Logout, RevokeAllForUser, LoginSecondFactor, Login,
         LoginCheck, Reset, RedeemedRow, ChangePassword, Setup, EnableTwoFactor, DisableTwoFactor,
         FactorChange, FindByEmail, FindByHash;
    match c.request
    case PasswordChange(v, current, newHash) => PasswordLock(e, w.store, v, current, newHash, c.at, u);
    case FactorSetup(v, _) =>
      FactorUsers(e, w, c);
      FactorLock(w.store.users, Step(e, w, c).0.store.users, v, u);
    case FactorEnable(v, _, _, _) =>
      FactorUsers(e, w, c);
      FactorLock(w.store.users, Step(e, w, c).0.store.users, v, u);
    case FactorDisable(v, _, _) =>
      FactorUsers(e, w, c);
      FactorLock(w.store.users, Step(e, w, c).0.store.users, v, u);
    case SecondStep(token, code, order, g) =>
      SecondStepUsers(e, w.store, VerifyJwt(w, token, c.at), code, order, g, c.at);
    case Renewal(raw, g) => RenewalUsers(e, w.store, raw, g, c.at);
    case ResetRedeem(raw, newHash) => ResetLock(e, w.store, raw, newHash, c.at, u);
    case _ =>
  }

  /** What one call does to one account's lock: a try needs the lock to be over; failed, it counts and
      from the threshold on locks; forgiving clears; nothing else touches it. */
  lemma {:induction false} StepLock(e: Env, w: World, c: Call, u: Id)
    requires Admissible(e, w, c) && u in w.store.users
    ensures var a, users' := w.store.users[u], Step(e, w, c).0.store.users;
            && u in users'
            && (Tries(e, w, c, u) && a.lockedUntil.Some? ==> a.lockedUntil.value <= c.at)
            && SameLock(AfterCall(e, w, c, u, a), users'[u])
  {
    hide Step, Tries, AfterCall, Admissible, SameLock;
    if c.request.SignIn? {
      SignInLock(e, w, c, u);
    } else {
      OtherLock(e, w, c, u);
    }
  }

  lemma {:induction false} LoginKeys(e: Env, s: Store, email: string, password: string, g: Grant, now: int)
    ensures Login(e, s, email, password, g, now).0.users.Keys == s.users.Keys
  {
    hide Issue;
  }

  lemma {:induction false} ResetKeys(e: Env, s: Store, raw: string, newHash: string, now: int)
    ensures Reset(e, s, raw, newHash, now).0.users.Keys == s.users.Keys
  {
    hide RevokeAllForUser, InvalidateAllForUser, RedeemedRow;
  }

  /** Only registration and the administrator add an account, and it starts unlocked and without a second factor. */
  lemma {:induction false} NewUser(e: Env, w: World, c: Call, u: Id)
    requires Admissible(e, w, c) && u !in w.store.users && u in Step(e, w, c).0.store.users
    ensures var a := Step(e, w, c).0.store.users[u];
            && (c.request.SignUp? || c.request.UserCreation?) && c.request.id == u && a.email == c.request.email
            && a.failedLoginAttempts == 0 && a.lockedUntil.None? && !a.twoFactorEnabled
  {
    hide Drawn, Listed, Fresh, VerifyCode, Refresh, Logout, RevokeAllForUser, LoginSecondFactor, Login,
         Issue, Reset, Setup, EnableTwoFactor, DisableTwoFactor, FactorChange, FindByEmail, FindByHash;
    match c.request
    case SignIn(email, password, g) => LoginKeys(e, w.store, email, password, g, c.at);
    case SecondStep(token, code, order, g) =>
      SecondStepUsers(e, w.store, VerifyJwt(w, token, c.at), code, order, g, c.at);
    case Renewal(raw, g) => RenewalUsers(e, w.store, raw, g, c.at);
    case ResetRedeem(raw, newHash) => ResetKeys(e, w.store, raw, newHash, c.at);
    case FactorSetup(v, _) =>
      FactorUsers(e, w, c);
      FactorLock(w.store.users, Step(e, w, c).0.store.users, v, u);
    case FactorEnable(v, _, _, _) =>
      FactorUsers(e, w, c);
      FactorLock(w.store.users, Step(e, w, c).0.store.users, v, u);
    case FactorDisable(v, _, _) =>
      FactorUsers(e, w, c);
      FactorLock(w.store.users, Step(e, w, c).0.store.users, v, u);
    case _ =>
  }

  /** In every reachable state an account carries a lock instant exactly when its failures have
      reached the threshold. */
  lemma {:induction false} StepLocks(e: Env, w: World, c: Call)
    requires Admissible(e, w, c) && e.lockout.max >= 1 && LocksConsistent(e.lockout, w.store.users)
    ensures LocksConsistent(e.lockout, Step(e, w, c).0.store.users)
  {
    var users, users' := w.store.users, Step(e, w, c).0.store.users;
    forall u | u in users'
      ensures LockConsistent(e.lockout, users'[u])
    {
      if u in users {
        StepLock(e, w, c, u);
        hide Step, Forgives, Tries;
      } else {
        NewUser(e, w, c, u);
        hide Step;
      }
    }
  }

  lemma {:induction false} TraceLocks(e: Env, ws: seq<World>, cs: seq<Call>, j: nat)
    requires Trace(e, ws, cs) && j < |ws| && e.lockout.max >= 1
    requires LocksConsistent(e.lockout, ws[0].store.users)
    ensures LocksConsistent(e.lockout, ws[j].store.users)
    decreases j
  {
    if j == 0 {
    } else {
      hide Step, LocksConsistent;
      TraceLocks(e, ws, cs, j - 1);
      StepLocks(e, ws[j - 1], cs[j - 1]);
    }
  }

  // ----- the bound -----------------------------------------------------------

  ghost function TryCount(e: Env, ws: seq<World>, cs: seq<Call>, i: nat, j: nat, u: Id): nat
    requires Trace(e, ws, cs) && i <= j <= |cs|
    decreases j - i
  {
    if i == j then 0
    else TryCount(e, ws, cs, i, j - 1, u) + (if Tries(e, ws[j - 1], cs[j - 1], u) then 1 else 0)
  }

  lemma {:induction false} ClockMonotone(e: Env, ws: seq<World>, cs: seq<Call>, i: nat, j: nat)
    requires Trace(e, ws, cs) && i <= j < |cs|
    ensures cs[i].at <= cs[j].at
    decreases j
  {
    hide Serve;
    if i == j {
    } else {
      ClockMonotone(e, ws, cs, i, j - 1);
      assert ws[j].now == cs[j - 1].at;
    }
  }

  /** No login of `u` succeeds and no password is set for it from call `i` up to call `j`. */
  ghost predicate Unforgiven(e: Env, ws: seq<World>, cs: seq<Call>, i: nat, j: nat, u: Id)
    requires Trace(e, ws, cs) && j <= |cs|
  {
    forall k :: i <= k < j ==> !Forgives(e, ws[k], cs[k], u)
  }

  /** The account after `n` tries since call `i`, the last of them at `last`. Below the threshold no
      more tries than failures; from it on, all tries but `max` lie whole lock periods apart. */
  ghost predicate Budget(l: Lockout, a: User, n: nat, start: int, last: int) {
    if a.failedLoginAttempts < l.max then n <= a.failedLoginAttempts
    else n == 0 || (a.lockedUntil == Some(last + l.lockMs) && (n - l.max) * l.lockMs <= last - start)
  }

  lemma {:induction false} BudgetTry(l: Lockout, a: User, n: nat, start: int, last: int, now: int)
    requires l.max >= 1 && Budget(l, a, n, start, last) && start <= now
    requires a.lockedUntil.Some? ==> a.lockedUntil.value <= now
    ensures Budget(l, Punished(l, a, now), n + 1, start, now)
  {
    MulSplit(n - l.max, 1, l.lockMs);
    if n + 1 <= l.max {
      MulMono(n + 1 - l.max, 0, l.lockMs);
    }
  }

  lemma {:induction false} BudgetStart(l: Lockout, a: User, start: int)
    ensures Budget(l, a, 0, start, start)
  {
  }

  lemma {:induction false} BudgetSame(l: Lockout, a: User, a': User, n: nat, start: int, last: int)
    requires SameLock(a, a') && Budget(l, a, n, start, last)
    ensures Budget(l, a', n, start, last)
  {
  }

  lemma {:induction false} TryBudget(e: Env, ws: seq<World>, cs: seq<Call>, i: nat, j: nat, u: Id)
    returns (last: int)
    requires Trace(e, ws, cs) && i < j <= |cs| && e.lockout.max >= 1
    requires u in ws[i].store.users && Unforgiven(e, ws, cs, i, j, u)
    ensures u in ws[j].store.users && cs[i].at <= last <= cs[j - 1].at
    ensures Budget(e.lockout, ws[j].store.users[u], TryCount(e, ws, cs, i, j, u), cs[i].at, last)
    decreases j
  {
    hide Step, Forgives, Tries, Budget, Admissible;
    var k := j - 1;
    ClockMonotone(e, ws, cs, i, k);
    last := cs[i].at;
    if i < k {
      last := TryBudget(e, ws, cs, i, k, u);
      ClockMonotone(e, ws, cs, k - 1, k);
    } else {
      BudgetStart(e.lockout, ws[i].store.users[u], cs[i].at);
    }
    var a, a' := ws[k].store.users[u], Punished(e.lockout, ws[k].store.users[u], cs[k].at);
    StepLock(e, ws[k], cs[k], u);
    hide Cleared, Punished, SameLock;
    if Tries(e, ws[k], cs[k], u) {
      BudgetTry(e.lockout, a, TryCount(e, ws, cs, i, k, u), cs[i].at, last, cs[k].at);
      BudgetSame(e.lockout, a', ws[j].store.users[u], TryCount(e, ws, cs, i, j, u), cs[i].at, cs[k].at);
      last := cs[k].at;
    } else {
      BudgetSame(e.lockout, a, ws[j].store.users[u], TryCount(e, ws, cs, i, j, u), cs[i].at, last);
    }
  }

  lemma {:induction false} BudgetBound(l: Lockout, a: User, n: nat, start: int, last: int, end: int)
    requires l.lockMs >= 1 && Budget(l, a, n, start, last) && start <= last <= end
    ensures n <= l.max + (end - start) / l.lockMs
  {
    if n > l.max {
      DivMono((n - l.max) * l.lockMs, end - start, l.lockMs);
      DivModUnique((n - l.max) * l.lockMs, l.lockMs, n - l.max, 0);
    }
  }

  /** Between two instants T ms apart with no successful login and no new password, at most
      max + floor(T / lock length) passwords of the account are checked. */
  lemma {:induction false} LockoutBound(e: Env, ws: seq<World>, cs: seq<Call>, i: nat, j: nat, u: Id)
    requires Trace(e, ws, cs) && i < j <= |cs| && e.lockout.max >= 1 && e.lockout.lockMs >= 1
    requires u in ws[i].store.users && Unforgiven(e, ws, cs, i, j, u)
    ensures TryCount(e, ws, cs, i, j, u) <= e.lockout.max + (cs[j - 1].at - cs[i].at) / e.lockout.lockMs
  {
    hide Step, Forgives, Tries, Budget, Admissible;
    var last := TryBudget(e, ws, cs, i, j, u);
    BudgetBound(e.lockout, ws[j].store.users[u], TryCount(e, ws, cs, i, j, u), cs[i].at, last, cs[j - 1].at);
  }
}
