/** Where sessions come from, over every trace: who started a path of refresh tokens and on what proof,
    and what a new password does to challenges signed before it. */
module SessionOrigins {
  import opened Text
  import opened TokenTable
  import opened Sessions
  import opened Accounts
  import opened SecondFactor
  import opened Resets
  import opened Auth
  import opened World
  import opened SessionSafety
  import opened LockoutSafety
  import opened FactorSafety
  import opened AccountSafety

  // ----- revoked rows are final ----------------------------------------------

  /** Rows revoked in `t` are the same rows in `t'`, links included. */
  ghost predicate Final(t: Table, t': Table) {
    forall id :: id in t && t[id].revokedAt.Some? ==> id in t' && t'[id] == t[id]
  }

  lemma {:induction false} FinalReflexive(t: Table)
    ensures Final(t, t)
  {
  }

  lemma {:induction false} FinalTransitive(t: Table, t': Table, t'': Table)
    requires Final(t, t') && Final(t', t'')
    ensures Final(t, t'')
  {
  }

  lemma {:induction false} IssueFinal(c: Config, t: Table, userId: Id, g: Grant, now: int)
    requires Drawn(t, g)
    ensures Final(t, Issue(c, t, userId, g, now))
  {
  }

  lemma {:induction false} RevokeAllFinal(t: Table, userId: Id, now: int)
    ensures Final(t, RevokeAllForUser(t, userId, now))
  {
  }

  lemma {:induction false} LogoutFinal(t: Table, raw: string, now: int)
    ensures Final(t, Logout(t, raw, now))
  {
    hide Parse;
  }

  lemma {:induction false} SwapFinal(c: Config, t: Table, id: Id, g: Grant, now: int)
    requires Drawn(t, g) && id in t && t[id].revokedAt.None?
    ensures Final(t, Swapped(c, t, id, g, now))
  {
  }

  lemma {:induction false} RefreshFinal(e: Env, s: Store, raw: string, g: Grant, now: int)
    requires Drawn(s.tokens, g)
    ensures Final(s.tokens, Refresh(e, s, raw, g, now).0.tokens)
  {
    var t := s.tokens;
    FinalReflexive(t);
    RotateSwaps(e.sessions, t, raw, g, now);
    hide Final, RevokeAllForUser, Swapped, Drawn, RawToken, Parse;
    match Check(e.sessions, t, raw, now)
    case None =>
      var id := Parse(raw).value.id;
      var t1 := Swapped(e.sessions, t, id, g, now);
      SwapFinal(e.sessions, t, id, g, now);
      RevokeAllFinal(t1, t[id].userId, now);
      FinalTransitive(t, t1, RevokeAllForUser(t1, t[id].userId, now));
    case Some(Reused) => RevokeAllFinal(t, t[Parse(raw).value.id].userId, now);
    case Some(_) =>
  }

  lemma {:induction false} LoginFinal(e: Env, s: Store, email: string, password: string, g: Grant, now: int)
    requires Drawn(s.tokens, g)
    ensures Final(s.tokens, Login(e, s, email, password, g, now).0.tokens)
  {
    FinalReflexive(s.tokens);
    hide Final, Issue, Drawn, LoginCheck;
    var c := LoginCheck(e, s, email, password, now).1;
    if c.Valid? {
      IssueFinal(e.sessions, s.tokens, c.id, g, now);
    }
  }

  lemma {:induction false} SecondStepFinal(
      e: Env, s: Store, payload: Option<Jwt>, code: string, order: seq<Id>, g: Grant, now: int)
    requires payload.Some? ==> Listed(s, payload.value.sub, order)
    requires Drawn(s.tokens, g)
    ensures Final(s.tokens, LoginSecondFactor(e, s, payload, code, order, g, now).0.tokens)
  {
    FinalReflexive(s.tokens);
    hide Final, Issue, Drawn, VerifyCode, Listed;
    if ChallengedUser(s, payload).Some? {
      IssueFinal(e.sessions, s.tokens, payload.value.sub, g, now);
    }
  }

  lemma {:induction false} ResetFinal(e: Env, s: Store, raw: string, newHash: string, now: int)
    ensures Final(s.tokens, Reset(e, s, raw, newHash, now).0.tokens)
  {
    FinalReflexive(s.tokens);
    hide Final, RevokeAllForUser;
    var row := RedeemedRow(e, s, raw, now);
    if row.Some? {
      RevokeAllFinal(s.tokens, s.resets[row.value].userId, now);
    }
  }

  /** No service call ever touches a revoked row again: its link and its instant of revocation stay. */
  lemma {:induction false} StepFinal(e: Env, w: World, c: Call)
    requires Admissible(e, w, c)
    ensures Final(w.store.tokens, Step(e, w, c).0.store.tokens)
  {
    var s, t, at := w.store, w.store.tokens, c.at;
    FinalReflexive(t);
    hide Final, Issue, Drawn, Listed, Fresh, Enable, Disable, Login, LoginSecondFactor, Refresh, Reset,
         RevokeAllForUser, Logout, FindByEmail, FindByHash;
    match c.request
    case SignUp(_, _, id, g) => IssueFinal(e.sessions, t, id, g, at);
    case SignIn(email, password, g) => LoginFinal(e, s, email, password, g, at);
    case SecondStep(token, code, order, g) => SecondStepFinal(e, s, VerifyJwt(w, token, at), code, order, g, at);
    case PasswordChange(u, _, _) => RevokeAllFinal(t, u, at);
    case Renewal(raw, g) => RefreshFinal(e, s, raw, g, at);
    case SignOut(raw) => LogoutFinal(t, raw, at);
    case SignOutAll(u) => RevokeAllFinal(t, u, at);
    case ResetRedeem(raw, newHash) => ResetFinal(e, s, raw, newHash, at);
    case _ =>
  }

  lemma {:induction false} TraceFinal(e: Env, ws: seq<World>, cs: seq<Call>, i: nat, j: nat)
    requires Trace(e, ws, cs) && i <= j < |ws|
    ensures Final(ws[i].store.tokens, ws[j].store.tokens)
    decreases j
  {
    hide Step, Final, Admissible;
    if i == j {
      FinalReflexive(ws[i].store.tokens);
    } else {
      TraceStep(e, ws, cs, j - 1);
      TraceFinal(e, ws, cs, i, j - 1);
      StepFinal(e, ws[j - 1], cs[j - 1]);
      FinalTransitive(ws[i].store.tokens, ws[j - 1].store.tokens, ws[j].store.tokens);
    }
  }

  // ----- who starts a session ------------------------------------------------

  /** What entitles the call to start a session for `u`: registering it, its right password where no
      second factor is enabled, or an accepted code for an unexpired challenge where one is. */
  ghost predicate Entitled(e: Env, w: World, c: Call, u: Id)
    requires Admissible(e, w, c)
  {
    match c.request
    case SignUp(_, _, id, _) => id == u
    case SignIn(_, password, _) =>
      && Attempt(e, w, c).Valid? && Attempt(e, w, c).id == u
      && u in w.store.users && !w.store.users[u].twoFactorEnabled
      && e.factors.argon2(w.store.users[u].passwordHash, password) == Match
    case SecondStep(_, _, _, _) => Completes(e, w, c, u)
    case _ => false
  }

  lemma {:induction false} LoginEntitles(e: Env, s: Store, email: string, password: string, g: Grant, now: int)
    ensures var a, c := Login(e, s, email, password, g, now).1, LoginCheck(e, s, email, password, now).1;
            a.Session? ==>
              && c.Valid? && c.id == a.userId && a.userId in s.users && !s.users[a.userId].twoFactorEnabled
              && e.factors.argon2(s.users[a.userId].passwordHash, password) == Match
  {
    hide Issue, RawToken;
  }

  lemma {:induction false} SecondStepEntitles(e: Env, w: World, c: Call)
    requires Admissible(e, w, c) && c.request.SecondStep?
    ensures Step(e, w, c).1.Session? ==> Completes(e, w, c, Step(e, w, c).1.userId)
  {
    hide Issue, Drawn, VerifyCode, RawToken;
  }

  lemma {:induction false} StartEntitled(e: Env, w: World, c: Call, u: Id)
    requires Admissible(e, w, c) && Starts(e, w, c, u)
    ensures Entitled(e, w, c, u)
  {
    var s := w.store;
    hide Issue, Drawn, Listed, Fresh, Login, LoginCheck, LoginSecondFactor, Reset, Enable, Disable, Completes,
         RawToken, FindByEmail, FindByHash, Rotate;
    match c.request
    case SignIn(email, password, g) => LoginEntitles(e, s, email, password, g, c.at);
    case SecondStep(_, _, _, _) => SecondStepEntitles(e, w, c);
    case ResetRedeem(raw, newHash) => ResetCounts(e, s, raw, newHash, c.at, u);
    case _ =>
  }

  lemma {:induction false} LoginStarts(e: Env, s: Store, email: string, password: string, g: Grant, now: int, u: Id)
    requires NewPath(s.tokens, Login(e, s, email, password, g, now).0.tokens, u)
    ensures StartsFor(Login(e, s, email, password, g, now).1, u)
  {
    hide Issue, NewPath, RawToken;
    var (users', c) := LoginCheck(e, s, email, password, now);
    if Login(e, s, email, password, g, now).1.Session? {
      IssuedOnly(e.sessions, s.tokens, c.id, g, now, u);
    } else {
      NoPath(s.tokens, u);
    }
  }

  lemma {:induction false} SecondStepStarts(
      e: Env, s: Store, payload: Option<Jwt>, code: string, order: seq<Id>, g: Grant, now: int, u: Id)
    requires payload.Some? ==> Listed(s, payload.value.sub, order)
    requires NewPath(s.tokens, LoginSecondFactor(e, s, payload, code, order, g, now).0.tokens, u)
    ensures StartsFor(LoginSecondFactor(e, s, payload, code, order, g, now).1, u)
  {
    hide Issue, NewPath, RawToken, VerifyCode, Listed;
    NoPath(s.tokens, u);
    if LoginSecondFactor(e, s, payload, code, order, g, now).1.Session? {
      IssuedOnly(e.sessions, s.tokens, payload.value.sub, g, now, u);
    }
  }

  lemma {:induction false} RegisterStarts(
      e: Env, s: Store, email: string, hash: string, id: Id, g: Grant, now: int, u: Id)
    requires NewPath(s.tokens, Register(e, s, email, hash, id, g, now).0.tokens, u)
    ensures StartsFor(Register(e, s, email, hash, id, g, now).1, u)
  {
    hide Issue, NewPath, RawToken;
    NoPath(s.tokens, u);
    if Register(e, s, email, hash, id, g, now).1.Session? {
      IssuedOnly(e.sessions, s.tokens, id, g, now, u);
    }
  }

  /** Every new path, whoever it belongs to, was started by the call: renewals only continue paths. */
  lemma {:induction false} PathStarted(e: Env, w: World, c: Call, u: Id)
    requires Admissible(e, w, c) && NewPath(w.store.tokens, Step(e, w, c).0.store.tokens, u)
    ensures Starts(e, w, c, u)
  {
    var s, t := w.store, w.store.tokens;
    hide NewPath, Issue, Drawn, Listed, Fresh, Register, Login, LoginSecondFactor, Refresh, Reset, EnableTwoFactor,
         DisableTwoFactor, RevokeAllForUser, Logout, FindByEmail, FindByHash;
    match c.request
    case SignUp(email, hash, id, g) => RegisterStarts(e, s, email, hash, id, g, c.at, u);
    case SignIn(email, password, g) => LoginStarts(e, s, email, password, g, c.at, u);
    case SecondStep(token, code, order, g) =>
      SecondStepStarts(e, s, VerifyJwt(w, token, c.at), code, order, g, c.at, u);
    case Renewal(raw, g) => RefreshPaths(e, s, raw, g, c.at, u);
    case _ =>
      KeysKept(e, w, c);
      SameRows(t, Step(e, w, c).0.store.tokens, u);
  }

  /** The call that created a row. */
  lemma {:induction false} RowOrigin(e: Env, ws: seq<World>, cs: seq<Call>, j: nat, id: Id) returns (i: nat)
    requires Trace(e, ws, cs) && j < |ws| && id in ws[j].store.tokens && id !in ws[0].store.tokens
    ensures i < j && id !in ws[i].store.tokens && id in ws[i + 1].store.tokens
    decreases j
  {
    hide Step, Admissible;
    if id in ws[j - 1].store.tokens {
      i := RowOrigin(e, ws, cs, j - 1, id);
    } else {
      i := j - 1;
    }
  }

  lemma {:induction false} StillFirst(t: Table, t': Table, id: Id, u: Id, before: Table)
    requires WellLinked(t) && Evolves(t, t') && Final(t, t')
    requires id in t && id !in before && !HasPredecessor(t', id) && t'[id].userId == u
    ensures NewPath(before, t, u)
  {
    assert RowEvolves(t[id], t'[id]);
    forall p | p in t
      ensures t[p].replacedById != Some(id)
    {
      assert LinkOk(t, p);
    }
  }

  lemma {:induction false} EmptyLinked()
    ensures WellLinked(map[])
  {
  }

  /** Over every trace: each path of refresh tokens was started by a call entitled to start a session for
      the user it belongs to. */
  lemma {:induction false} PathOrigin(e: Env, ws: seq<World>, cs: seq<Call>, j: nat, p: seq<Id>) returns (i: nat)
    requires Trace(e, ws, cs) && j < |ws| && ws[0].store.tokens == map[]
    requires Path(ws[j].store.tokens, p)
    ensures i < j && i < |cs| && p[0] !in ws[i].store.tokens && p[0] in ws[i + 1].store.tokens
    ensures var u := ws[j].store.tokens[p[0]].userId; Starts(e, ws[i], cs[i], u) && Entitled(e, ws[i], cs[i], u)
  {
    hide Step, Admissible, WellLinked, Evolves, Final, HasPredecessor, NewPath, Starts, Entitled;
    var t', u := ws[j].store.tokens, ws[j].store.tokens[p[0]].userId;
    i := RowOrigin(e, ws, cs, j, p[0]);
    EmptyLinked();
    TraceTokens(e, ws, cs, 0, i + 1);
    TraceTokens(e, ws, cs, i + 1, j);
    TraceFinal(e, ws, cs, i + 1, j);
    StillFirst(ws[i + 1].store.tokens, t', p[0], u, ws[i].store.tokens);
    TraceStep(e, ws, cs, i);
    PathStarted(e, ws[i], cs[i], u);
    StartEntitled(e, ws[i], cs[i], u);
  }

  // ----- challenges and new passwords ----------------------------------------

  lemma {:induction false} ChallengeHash(e: Env, w: World, c: Call, token: Jwt)
    requires Admissible(e, w, c) && Challenges(e, w, c, token)
    ensures token.sub in w.store.users && c.request.SignIn? && NewHash(e, w, c, token.sub).None?
    ensures e.factors.argon2(w.store.users[token.sub].passwordHash, c.request.password) == Match
    ensures token.exp == c.at + e.challengeTtl
  {
    hide Attempt, Step;
  }

  /** No new password is set for `u` from call `i` up to call `j`. */
  ghost predicate NoNewHash(e: Env, ws: seq<World>, cs: seq<Call>, i: nat, j: nat, u: Id)
    requires Trace(e, ws, cs) && j <= |cs|
  {
    forall k :: i <= k < j ==> NewHash(e, ws[k], cs[k], u).None?
  }

  lemma {:induction false} HashStays(e: Env, ws: seq<World>, cs: seq<Call>, i: nat, j: nat, u: Id)
    requires Trace(e, ws, cs) && i <= j <= |cs| && NoNewHash(e, ws, cs, i, j, u)
    requires u in ws[i].store.users
    ensures u in ws[j].store.users && ws[j].store.users[u].passwordHash == ws[i].store.users[u].passwordHash
    decreases j
  {
    hide Step, NewHash, Admissible;
    if i == j {
    } else {
      TraceStep(e, ws, cs, j - 1);
      HashStays(e, ws, cs, i, j - 1, u);
      StepAccount(e, ws[j - 1], cs[j - 1], u);
    }
  }

  lemma {:induction false} CompletesWith(e: Env, w: World, c: Call, u: Id)
    requires Admissible(e, w, c) && Completes(e, w, c, u)
    ensures c.request.SecondStep? && c.request.token.sub == u && c.request.token in w.jwts
    ensures c.request.token.typ == TwoFactorType && c.at < c.request.token.exp
  {
    hide VerifyCode;
  }

  /** A session started for an existing account by logging in, in one step or two. */
  lemma {:induction false} StartedByLogin(e: Env, w: World, c: Call, u: Id)
    requires Admissible(e, w, c) && Entitled(e, w, c, u) && u in w.store.users
    ensures c.request.SignIn? || c.request.SecondStep?
    ensures c.request.SignIn? ==> e.factors.argon2(w.store.users[u].passwordHash, c.request.password) == Match
    ensures c.request.SecondStep? ==> Completes(e, w, c, u)
  {
    hide Attempt, Completes, Drawn;
  }

  /** What the challenge signed by call `k` says about the password set by call `i`: signed later, its
      login used that password; signed before, it works on until its own lifetime is over. */
  ghost predicate ChallengeStands(
      e: Env, ws: seq<World>, cs: seq<Call>, i: nat, k: nat, j: nat, u: Id)
    requires Trace(e, ws, cs) && i < |cs| && k < j < |cs|
  {
    && k != i && Completes(e, ws[j], cs[j], u)
    && cs[j].request.SecondStep? && cs[k].request.SignIn?
    && Challenges(e, ws[k], cs[k], cs[j].request.token)
    && if k > i
       then NewHash(e, ws[i], cs[i], u).Some?
            && e.factors.argon2(NewHash(e, ws[i], cs[i], u).value, cs[k].request.password) == Match
       else cs[k].at <= cs[i].at <= cs[j].at < cs[k].at + e.challengeTtl
  }

  lemma {:induction false} ChallengeAfter(e: Env, ws: seq<World>, cs: seq<Call>, i: nat, j: nat, u: Id)
    returns (k: nat)
    requires Trace(e, ws, cs) && i < j < |cs| && ws[0].jwts == {}
    requires NewHash(e, ws[i], cs[i], u).Some? && NoNewHash(e, ws, cs, i + 1, j, u)
    requires Completes(e, ws[j], cs[j], u)
    ensures k < j && ChallengeStands(e, ws, cs, i, k, j, u)
  {
    hide Step, Admissible, NewHash, Challenges, Completes, Serve;
    TraceStep(e, ws, cs, i);
    CompletesWith(e, ws[j], cs[j], u);
    k := ChallengeOrigin(e, ws, cs, j, cs[j].request.token);
    TraceStep(e, ws, cs, k);
    ChallengeHash(e, ws[k], cs[k], cs[j].request.token);
    ClockMonotone(e, ws, cs, i, j);
    if k > i {
      HashStored(e, ws[i], cs[i], u);
      HashStays(e, ws, cs, i + 1, k, u);
    } else {
      ClockMonotone(e, ws, cs, k, i);
    }
  }

  /** After a new password is set for an account, by whatever call, a session starts for it only with
      that password, or by completing a challenge signed before the change, within that challenge's
      lifetime. */
  lemma {:induction false} NewPasswordNeeded(e: Env, ws: seq<World>, cs: seq<Call>, i: nat, j: nat, u: Id)
    returns (k: nat)
    requires Trace(e, ws, cs) && i < j < |cs| && ws[0].jwts == {}
    requires NewHash(e, ws[i], cs[i], u).Some? && NoNewHash(e, ws, cs, i + 1, j, u)
    requires Starts(e, ws[j], cs[j], u)
    ensures cs[j].request.SignIn? || cs[j].request.SecondStep?
    ensures cs[j].request.SignIn? ==>
              e.factors.argon2(NewHash(e, ws[i], cs[i], u).value, cs[j].request.password) == Match
    ensures cs[j].request.SecondStep? ==> k < j && ChallengeStands(e, ws, cs, i, k, j, u)
  {
    hide Step, Admissible, NewHash, Completes, Starts, Entitled, ChallengeStands, NoNewHash;
    TraceStep(e, ws, cs, i);
    HashStored(e, ws[i], cs[i], u);
    HashStays(e, ws, cs, i + 1, j, u);
    StartEntitled(e, ws[j], cs[j], u);
    StartedByLogin(e, ws[j], cs[j], u);
    k := 0;
    if cs[j].request.SecondStep? {
      k := ChallengeAfter(e, ws, cs, i, j, u);
    }
  }
}
