/** What every trace of service calls keeps about refresh tokens. */
module SessionSafety {
  import opened Text
  import opened TokenTable
  import opened Sessions
  import opened Accounts
  import opened SecondFactor
  import opened Resets
  import opened Auth
  import opened World

  // ----- one call ------------------------------------------------------------

  ghost predicate Keeps(t: Table, t': Table) {
    WellLinked(t') && Evolves(t, t')
  }

  lemma {:induction false} LoginKeeps(e: Env, s: Store, email: string, password: string, g: Grant, now: int)
    requires WellLinked(s.tokens) && Drawn(s.tokens, g)
    ensures Keeps(s.tokens, Login(e, s, email, password, g, now).0.tokens)
  {
    EvolvesReflexive(s.tokens);
    hide WellLinked, Evolves, Issue, Drawn, LoginCheck;
    var c := LoginCheck(e, s, email, password, now).1;
    if c.Valid? {
      IssueKeeps(e.sessions, s.tokens, c.id, g, now);
    }
  }

  lemma {:induction false} SecondFactorKeeps(
      e: Env, s: Store, payload: Option<Jwt>, code: string, order: seq<Id>, g: Grant, now: int)
    requires payload.Some? ==> Listed(s, payload.value.sub, order)
    requires WellLinked(s.tokens) && Drawn(s.tokens, g)
    ensures Keeps(s.tokens, LoginSecondFactor(e, s, payload, code, order, g, now).0.tokens)
  {
    EvolvesReflexive(s.tokens);
    hide WellLinked, Evolves, Issue, Drawn, VerifyCode, Listed;
    if ChallengedUser(s, payload).Some? {
      IssueKeeps(e.sessions, s.tokens, payload.value.sub, g, now);
    }
  }

  lemma {:induction false} RefreshKeeps(e: Env, s: Store, raw: string, g: Grant, now: int)
    requires WellLinked(s.tokens) && Drawn(s.tokens, g)
    ensures Keeps(s.tokens, Refresh(e, s, raw, g, now).0.tokens)
  {
    hide WellLinked, Evolves, Rotate, Drawn, RevokeAllForUser;
    RotateKeeps(e.sessions, s.tokens, raw, g, now);
    var (t1, r) := Rotate(e.sessions, s.tokens, raw, g, now);
    if r.Rotated? {
      RevokeAllKeeps(t1, r.userId, now);
      EvolvesTransitive(s.tokens, t1, RevokeAllForUser(t1, r.userId, now));
    }
  }

  lemma {:induction false} ResetKeeps(e: Env, s: Store, raw: string, newHash: string, now: int)
    requires WellLinked(s.tokens)
    ensures Keeps(s.tokens, Reset(e, s, raw, newHash, now).0.tokens)
  {
    EvolvesReflexive(s.tokens);
    hide WellLinked, Evolves, RevokeAllForUser;
    var row := RedeemedRow(e, s, raw, now);
    if row.Some? {
      RevokeAllKeeps(s.tokens, s.resets[row.value].userId, now);
    }
  }

  /** Every call keeps the links in order, removes no row, hands no row to another user and revives
      none. */
  lemma {:induction false} StepTokens(e: Env, w: World, c: Call)
    requires Admissible(e, w, c) && WellLinked(w.store.tokens)
    ensures Keeps(w.store.tokens, Step(e, w, c).0.store.tokens)
  {
    var s, t, at := w.store, w.store.tokens, c.at;
    EvolvesReflexive(t);
    hide WellLinked, Evolves, Issue, Logout, RevokeAllForUser, Drawn, Listed, Enable, Disable, Fresh,
         Login, LoginSecondFactor, Refresh, Reset;
    match c.request
    case SignUp(_, _, id, g) => IssueKeeps(e.sessions, t, id, g, at);
    case SignIn(email, password, g) => LoginKeeps(e, s, email, password, g, at);
    case SecondStep(token, code, order, g) =>
      SecondFactorKeeps(e, s, VerifyJwt(w, token, at), code, order, g, at);
    case PasswordChange(u, _, _) => RevokeAllKeeps(t, u, at);
    case Renewal(raw, g) => RefreshKeeps(e, s, raw, g, at);
    case SignOut(raw) => LogoutKeeps(t, raw, at);
    case SignOutAll(u) => RevokeAllKeeps(t, u, at);
    case ResetRedeem(raw, newHash) => ResetKeeps(e, s, raw, newHash, at);
    case _ =>
  }

  // ----- every trace ---------------------------------------------------------

  /** From a well-linked table on, every state of every trace is well linked, and rows only evolve. */
  lemma {:induction false} TraceTokens(e: Env, ws: seq<World>, cs: seq<Call>, i: nat, j: nat)
    requires Trace(e, ws, cs) && i <= j < |ws| && WellLinked(ws[i].store.tokens)
    ensures WellLinked(ws[j].store.tokens) && Evolves(ws[i].store.tokens, ws[j].store.tokens)
    decreases j
  {
    hide Step, WellLinked, Evolves, Admissible;
    if i == j {
      EvolvesReflexive(ws[i].store.tokens);
    } else {
      TraceTokens(e, ws, cs, i, j - 1);
      StepTokens(e, ws[j - 1], cs[j - 1]);
      EvolvesTransitive(ws[i].store.tokens, ws[j - 1].store.tokens, ws[j].store.tokens);
    }
  }

  /** In every state reached from an empty table, the links form disjoint paths. */
  lemma {:induction false} TracePaths(e: Env, ws: seq<World>, cs: seq<Call>, j: nat)
    requires Trace(e, ws, cs) && j < |ws| && ws[0].store.tokens == map[]
    ensures DisjointPaths(ws[j].store.tokens)
  {
    TraceTokens(e, ws, cs, 0, j);
    LinksFormPaths(ws[j].store.tokens);
  }

  /** The outcome of rotating the token presented at a renewal. */
  ghost function RotationAt(e: Env, w: World, c: Call): Rotation
    requires Admissible(e, w, c) && c.request.Renewal?
  {
    Rotate(e.sessions, w.store.tokens, c.request.raw, c.request.grant, c.at).1
  }

  ghost predicate Rotates(e: Env, w: World, c: Call) {
    Admissible(e, w, c) && c.request.Renewal? && RotationAt(e, w, c).Rotated?
  }

  lemma {:induction false} RefreshRevokes(e: Env, s: Store, raw: string, g: Grant, now: int)
    requires Drawn(s.tokens, g) && Rotate(e.sessions, s.tokens, raw, g, now).1.Rotated?
    ensures var r := Rotate(e.sessions, s.tokens, raw, g, now).1;
            var t, t' := s.tokens, Refresh(e, s, raw, g, now).0.tokens;
            && r.oldId in t && t[r.oldId].revokedAt.None? && t[r.oldId].userId == r.userId
            && r.oldId in t' && t'[r.oldId].revokedAt.Some?
  {
    RotateSwaps(e.sessions, s.tokens, raw, g, now);
    hide Rotate, Drawn, RawToken;
  }

  /** Where a successful rotation leaves the presented row: it was there unrevoked, and is revoked. */
  lemma {:induction false} RotatesRevokes(e: Env, w: World, c: Call)
    requires Rotates(e, w, c)
    ensures var r := RotationAt(e, w, c);
            var t, t' := w.store.tokens, Step(e, w, c).0.store.tokens;
            && r.oldId in t && t[r.oldId].revokedAt.None? && t[r.oldId].userId == r.userId
            && r.oldId in t' && t'[r.oldId].revokedAt.Some?
  {
    RefreshRevokes(e, w.store, c.request.raw, c.request.grant, c.at);
    hide Refresh, Rotate, Drawn;
  }

  /** Each token id rotates successfully at most once over any trace. */
  lemma {:induction false} RotatesOnce(e: Env, ws: seq<World>, cs: seq<Call>, i: nat, j: nat)
    requires Trace(e, ws, cs) && i < j < |cs| && WellLinked(ws[0].store.tokens)
    requires Rotates(e, ws[i], cs[i]) && Rotates(e, ws[j], cs[j])
    ensures RotationAt(e, ws[i], cs[i]).oldId != RotationAt(e, ws[j], cs[j]).oldId
  {
    hide Step, WellLinked, Evolves, Admissible, RotationAt;
    TraceTokens(e, ws, cs, 0, i);
    TraceTokens(e, ws, cs, 0, i + 1);
    TraceTokens(e, ws, cs, 0, j);
    TraceTokens(e, ws, cs, i + 1, j);
    RotatesRevokes(e, ws[i], cs[i]);
    RotatesRevokes(e, ws[j], cs[j]);
    RowStays(ws[i + 1].store.tokens, ws[j].store.tokens, RotationAt(e, ws[i], cs[i]).oldId);
  }

  // ----- cutting a user off --------------------------------------------------

  /** The call ends every session of `u`: a password change or reset, signing out everywhere,
      presenting a revoked token, or renewing for an account that is gone or inactive. */
  ghost predicate Cuts(e: Env, w: World, c: Call, u: Id)
    requires Admissible(e, w, c)
  {
    match c.request
    case PasswordChange(userId, _, _) => userId == u && Step(e, w, c).1.Done?
    case ResetRedeem(raw, _) =>
      Step(e, w, c).1.Done?
      && w.store.resets[RedeemedRow(e, w.store, raw, c.at).value].userId == u
    case SignOutAll(userId) => userId == u
    case Renewal(raw, _) =>
      var r := RotationAt(e, w, c);
      if r.Rotated? then r.userId == u && !LiveUser(w.store.users, u)
      else r.error.Reused? && w.store.tokens[Parse(raw).value.id].userId == u
    case _ => false
  }

  /** No active row of `u` is left and every row of everyone else is as it was. */
  ghost predicate Sealed(t: Table, t': Table, u: Id) {
    Active(t', u) == {} && forall id :: id in t && t[id].userId != u ==> id in t' && t'[id] == t[id]
  }

  lemma {:induction false} RevokeAllSeals(t: Table, u: Id, now: int)
    ensures Sealed(t, RevokeAllForUser(t, u, now), u)
  {
  }

  lemma {:induction false} SwapSeals(c: Config, t: Table, id: Id, g: Grant, now: int)
    requires Drawn(t, g) && id in t
    ensures Sealed(t, RevokeAllForUser(Swapped(c, t, id, g, now), t[id].userId, now), t[id].userId)
  {
  }

  lemma {:induction false} RefreshSeals(e: Env, s: Store, raw: string, g: Grant, now: int, u: Id)
    requires Drawn(s.tokens, g)
    requires var r := Rotate(e.sessions, s.tokens, raw, g, now).1;
             if r.Rotated? then r.userId == u && !LiveUser(s.users, u)
             else r.error.Reused? && s.tokens[Parse(raw).value.id].userId == u
    ensures Sealed(s.tokens, Refresh(e, s, raw, g, now).0.tokens, u)
  {
    RotateSwaps(e.sessions, s.tokens, raw, g, now);
    hide Sealed, RevokeAllForUser, Swapped, RawToken, Drawn;
    if Check(e.sessions, s.tokens, raw, now).None? {
      SwapSeals(e.sessions, s.tokens, Parse(raw).value.id, g, now);
    } else {
      RevokeAllSeals(s.tokens, u, now);
    }
  }

  lemma {:induction false} CutSeals(e: Env, w: World, c: Call, u: Id)
    requires Admissible(e, w, c) && Cuts(e, w, c, u)
    ensures Sealed(w.store.tokens, Step(e, w, c).0.store.tokens, u)
  {
    hide Sealed, RevokeAllForUser, Drawn, Rotate, Refresh, LoginCheck, LoginSecondFactor, Register,
         EnableTwoFactor, DisableTwoFactor, Fresh, Listed, RedeemedRow;
    match c.request
    case Renewal(raw, g) => RefreshSeals(e, w.store, raw, g, c.at, u);
    case _ => RevokeAllSeals(w.store.tokens, u, c.at);
  }

  /** After such a call no token `u` held by then ever rotates again: whatever rotates later was
      created later. This covers the row the refused renewal itself has just created. */
  lemma {:induction false} CutOff(e: Env, ws: seq<World>, cs: seq<Call>, i: nat, j: nat, u: Id)
    requires Trace(e, ws, cs) && i < j < |cs| && WellLinked(ws[0].store.tokens)
    requires Cuts(e, ws[i], cs[i], u)
    requires Rotates(e, ws[j], cs[j]) && RotationAt(e, ws[j], cs[j]).userId == u
    ensures RotationAt(e, ws[j], cs[j]).oldId !in ws[i + 1].store.tokens
  {
    CutSeals(e, ws[i], cs[i], u);
    hide Step, WellLinked, Evolves, Admissible, RotationAt, Cuts, Active;
    TraceTokens(e, ws, cs, 0, i + 1);
    TraceTokens(e, ws, cs, 0, j);
    TraceTokens(e, ws, cs, i + 1, j);
    RotatesRevokes(e, ws[j], cs[j]);
    var id := RotationAt(e, ws[j], cs[j]).oldId;
    var t := ws[i + 1].store.tokens;
    if id in t {
      RowStays(t, ws[j].store.tokens, id);
      NoneActive(t, u, id);
    }
  }

  // ----- counting sessions ---------------------------------------------------

  /** The call starts a session for `u`, as opposed to renewing one. */
  ghost predicate Starts(e: Env, w: World, c: Call, u: Id)
    requires Admissible(e, w, c)
  {
    !c.request.Renewal? && Step(e, w, c).1.Session? && Step(e, w, c).1.userId == u
  }

  /** One if the raw token names an active row of `u`, otherwise none. */
  function Named(t: Table, raw: string, u: Id): nat {
    if Parse(raw).Some? && Parse(raw).value.id in Active(t, u) then 1 else 0
  }

  /** The number of active rows of `u` that the call ends: all of them if it cuts `u` off, the named one
      if it signs `u` out. */
  ghost function Ends(e: Env, w: World, c: Call, u: Id): nat
    requires Admissible(e, w, c)
  {
    if Cuts(e, w, c, u) then |Active(w.store.tokens, u)|
    else if c.request.SignOut? then Named(w.store.tokens, c.request.raw, u)
    else 0
  }

  /** The number of active rows of `u` rises by `started` and falls by `ended`. */
  ghost predicate Balances(t: Table, t': Table, u: Id, started: nat, ended: nat) {
    |Active(t', u)| + ended == |Active(t, u)| + started
  }

  function One(b: bool): nat {
    if b then 1 else 0
  }

  ghost predicate StartsFor(a: Answer, u: Id) {
    a.Session? && a.userId == u
  }

  /** What revoking everything of `v` ends for `u`. */
  function AllOf(t: Table, v: Id, u: Id): nat {
    if u == v then |Active(t, u)| else 0
  }

  lemma {:induction false} StartSessionCounts(e: Env, s: Store, userId: Id, g: Grant, now: int, u: Id)
    requires Drawn(s.tokens, g)
    ensures Balances(s.tokens, StartSession(e, s, userId, g, now).0.tokens, u, One(u == userId), 0)
  {
    IssueCounts(e.sessions, s.tokens, userId, g, now, u);
    hide Active, Issue, Drawn;
  }

  lemma {:induction false} RegisterCounts(
      e: Env, s: Store, email: string, hash: string, id: Id, g: Grant, now: int, u: Id)
    requires Drawn(s.tokens, g)
    ensures var (s', a) := Register(e, s, email, hash, id, g, now);
            Balances(s.tokens, s'.tokens, u, One(StartsFor(a, u)), 0)
  {
    var (s1, a) := CreateUser(s, email, hash, None, id);
    StartSessionCounts(e, s1, id, g, now, u);
    hide Issue, Drawn, Active;
  }

  lemma {:induction false} RevokeAllBalances(t: Table, v: Id, now: int, u: Id)
    ensures Balances(t, RevokeAllForUser(t, v, now), u, 0, AllOf(t, v, u))
  {
    RevokeAllCounts(t, v, now, u);
    hide Active, RevokeAllForUser;
  }

  lemma {:induction false} LoginCounts(e: Env, s: Store, email: string, password: string, g: Grant, now: int, u: Id)
    requires Drawn(s.tokens, g)
    ensures var (s', a) := Login(e, s, email, password, g, now);
            Balances(s.tokens, s'.tokens, u, One(StartsFor(a, u)), 0)
  {
    hide LoginCheck, Issue, Drawn, Active;
    var (users', c) := LoginCheck(e, s, email, password, now);
    if c.Valid? {
      StartSessionCounts(e, s.(users := users'), c.id, g, now, u);
    }
  }

  lemma {:induction false} SecondFactorCounts(
      e: Env, s: Store, payload: Option<Jwt>, code: string, order: seq<Id>, g: Grant, now: int, u: Id)
    requires payload.Some? ==> Listed(s, payload.value.sub, order)
    requires Drawn(s.tokens, g)
    ensures var (s', a) := LoginSecondFactor(e, s, payload, code, order, g, now);
            Balances(s.tokens, s'.tokens, u, One(StartsFor(a, u)), 0)
  {
    hide VerifyCode, Issue, Drawn, Active;
    match ChallengedUser(s, payload)
    case None =>
    case Some(user) =>
      var userId := payload.value.sub;
      var codes' := VerifyCode(e.factors, s.codes, userId, user, code, order, now).0;
      StartSessionCounts(e, s.(codes := codes'), userId, g, now, u);
  }

  /** Who a renewal cuts off, if anybody. */
  ghost predicate RefreshCuts(e: Env, s: Store, raw: string, g: Grant, now: int, u: Id)
    requires Drawn(s.tokens, g)
  {
    var r := Rotate(e.sessions, s.tokens, raw, g, now).1;
    if r.Rotated? then r.userId == u && !LiveUser(s.users, u)
    else r.error.Reused? && s.tokens[Parse(raw).value.id].userId == u
  }

  lemma {:induction false} ReuseCounts(e: Env, t: Table, raw: string, g: Grant, now: int, u: Id)
    requires Drawn(t, g) && Rotate(e.sessions, t, raw, g, now).1.Refused?
    ensures var (t', r) := Rotate(e.sessions, t, raw, g, now);
            Balances(t, t', u, 0, if r.error.Reused? then AllOf(t, t[Parse(raw).value.id].userId, u) else 0)
  {
    hide RevokeAllForUser, RawToken, Issue, Revoke, Active, Drawn;
    if Check(e.sessions, t, raw, now) == Some(Reused) {
      RevokeAllBalances(t, t[Parse(raw).value.id].userId, now, u);
    }
  }

  /** A renewal answered with tokens conserves everyone's number, one that cuts its user off ends them
      all, the row it has just created included, and any other changes nothing. */
  lemma {:induction false} RefreshCounts(e: Env, s: Store, raw: string, g: Grant, now: int, u: Id)
    requires Drawn(s.tokens, g)
    ensures var (s', a) := Refresh(e, s, raw, g, now);
            && Balances(s.tokens, s'.tokens, u, 0,
                        if RefreshCuts(e, s, raw, g, now, u) then |Active(s.tokens, u)| else 0)
            && (a.Session? ==> !RefreshCuts(e, s, raw, g, now, u))
  {
    var (t1, r) := Rotate(e.sessions, s.tokens, raw, g, now);
    if r.Rotated? {
      RotateCounts(e.sessions, s.tokens, raw, g, now, u);
      RevokeAllBalances(t1, r.userId, now, u);
      hide Rotate, RevokeAllForUser, Drawn, Active;
    } else {
      ReuseCounts(e, s.tokens, raw, g, now, u);
      hide Rotate, RevokeAllForUser, Drawn, Active;
    }
  }

  lemma {:induction false} PasswordCounts(e: Env, s: Store, v: Id, current: string, newHash: string, now: int, u: Id)
    ensures var (s', a) := ChangePassword(e, s, v, current, newHash, now);
            !a.Session? && Balances(s.tokens, s'.tokens, u, 0, if a.Done? then AllOf(s.tokens, v, u) else 0)
  {
    RevokeAllBalances(s.tokens, v, now, u);
    hide RevokeAllForUser, Active;
  }

  lemma {:induction false} ResetCounts(e: Env, s: Store, raw: string, newHash: string, now: int, u: Id)
    ensures var (s', a) := Reset(e, s, raw, newHash, now);
            && !a.Session?
            && Balances(s.tokens, s'.tokens, u, 0,
                        if a.Done? then AllOf(s.tokens, s.resets[RedeemedRow(e, s, raw, now).value].userId, u) else 0)
  {
    var row := RedeemedRow(e, s, raw, now);
    if row.Some? {
      RevokeAllBalances(s.tokens, s.resets[row.value].userId, now, u);
    }
    hide RevokeAllForUser, Active, RedeemedRow;
  }

  lemma {:induction false} TakeOut(a: set<Id>, id: Id)
    ensures |a - {id}| + One(id in a) == |a|
  {
    if id !in a {
      assert a - {id} == a;
    }
  }

  lemma {:induction false} LogoutBalances(t: Table, raw: string, now: int, u: Id)
    ensures Balances(t, Logout(t, raw, now), u, 0, Named(t, raw, u))
  {
    LogoutCounts(t, raw, now, u);
    hide Logout, Active;
    if Parse(raw).Some? {
      TakeOut(Active(t, u), Parse(raw).value.id);
    }
  }

  lemma {:induction false} OtherCounts(e: Env, w: World, c: Call)
    requires Admissible(e, w, c)
    requires !c.request.SignUp? && !c.request.SignIn? && !c.request.SecondStep? && !c.request.PasswordChange?
    requires !c.request.Renewal? && !c.request.SignOut? && !c.request.SignOutAll? && !c.request.ResetRedeem?
    ensures !Step(e, w, c).1.Session? && Step(e, w, c).0.store.tokens == w.store.tokens
  {
    hide Drawn, Listed, Fresh, Enable, Disable, FindByEmail, FindByHash;
  }

  lemma {:induction false} SameBalance(t: Table, u: Id)
    ensures Balances(t, t, u, 0, 0)
  {
  }

  /** The exact change of each call: starting a session adds one active row to its user, signing out
      takes the named one, cutting off takes them all, and nothing else changes anyone's number. */
  lemma {:induction false} StepCounts(e: Env, w: World, c: Call, u: Id)
    requires Admissible(e, w, c)
    ensures Balances(w.store.tokens, Step(e, w, c).0.store.tokens, u, One(Starts(e, w, c, u)), Ends(e, w, c, u))
  {
    var s, t, at := w.store, w.store.tokens, c.at;
    hide Active, Issue, Drawn, Listed, Fresh, Register, Login, LoginSecondFactor, ChangePassword, Refresh,
         Reset, RevokeAllForUser, Logout, Named, RedeemedRow, Rotate, Balances;
    match c.request
    case SignUp(email, hash, id, g) => RegisterCounts(e, s, email, hash, id, g, at, u);
    case SignIn(email, password, g) => LoginCounts(e, s, email, password, g, at, u);
    case SecondStep(token, code, order, g) =>
      SecondFactorCounts(e, s, VerifyJwt(w, token, at), code, order, g, at, u);
    case PasswordChange(v, current, newHash) => PasswordCounts(e, s, v, current, newHash, at, u);
    case Renewal(raw, g) => RefreshCounts(e, s, raw, g, at, u);
    case SignOut(raw) => LogoutBalances(t, raw, at, u);
    case SignOutAll(v) => RevokeAllBalances(t, v, at, u);
    case ResetRedeem(raw, newHash) => ResetCounts(e, s, raw, newHash, at, u);
    case _ =>
      OtherCounts(e, w, c);
      hide Step;
      SameBalance(t, u);
  }

  ghost function StartCount(e: Env, ws: seq<World>, cs: seq<Call>, i: nat, j: nat, u: Id): nat
    requires Trace(e, ws, cs) && i <= j <= |cs|
    decreases j - i
  {
    if i == j then 0
    else StartCount(e, ws, cs, i, j - 1, u) + One(Starts(e, ws[j - 1], cs[j - 1], u))
  }

  ghost function EndCount(e: Env, ws: seq<World>, cs: seq<Call>, i: nat, j: nat, u: Id): nat
    requires Trace(e, ws, cs) && i <= j <= |cs|
    decreases j - i
  {
    if i == j then 0 else EndCount(e, ws, cs, i, j - 1, u) + Ends(e, ws[j - 1], cs[j - 1], u)
  }

  /** Over any stretch of any trace a user's active rows are those there were, plus the sessions started,
      minus those ended: renewing, however often and by whomever, neither adds nor loses one. */
  lemma {:induction false} SessionsConserved(e: Env, ws: seq<World>, cs: seq<Call>, i: nat, j: nat, u: Id)
    requires Trace(e, ws, cs) && i <= j <= |cs|
    ensures |Active(ws[j].store.tokens, u)| + EndCount(e, ws, cs, i, j, u)
         == |Active(ws[i].store.tokens, u)| + StartCount(e, ws, cs, i, j, u)
    decreases j - i
  {
    hide Step, Active, Starts, Ends, Admissible;
    if i == j {
    } else {
      TraceStep(e, ws, cs, j - 1);
      SessionsConserved(e, ws, cs, i, j - 1, u);
      StepCounts(e, ws[j - 1], cs[j - 1], u);
    }
  }
}
