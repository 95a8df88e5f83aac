/** What must have happened, over every trace: why a password hash changed, why a second factor went
    off, and what whoever renews a session has to show. */
module Causes {
  import opened Text
  import Base32
  import opened TokenTable
  import opened Sessions
  import opened Accounts
  import opened SecondFactor
  import opened Resets
  import opened Auth
  import opened World
  import opened Decisions
  import opened SessionSafety
  import opened AccountSafety
  import opened ResetSafety
  import opened FactorSafety
  import opened RoundTrips
  import opened SessionOrigins

  // ----- passwords -----------------------------------------------------------

  /** The current password of `u` is given along with the new one. */
  ghost predicate ProvesPassword(e: Env, w: World, c: Call, u: Id) {
    && c.request.PasswordChange? && c.request.userId == u && Present(w.store.users, u)
    && e.factors.argon2(w.store.users[u].passwordHash, c.request.current) == Match
  }

  /** The token presented hashes to a stored, unused, unexpired reset token of `u`. */
  ghost predicate ProvesReset(e: Env, w: World, c: Call, u: Id) {
    && c.request.ResetRedeem?
    && exists id ::
         && HasHash(w.store.resets, id, e.sessions.sha256(c.request.raw)) && w.store.resets[id].userId == u
         && w.store.resets[id].usedAt.None? && c.at <= w.store.resets[id].expiresAt
  }

  lemma {:induction false} RedeemsIs(e: Env, w: World, c: Call, u: Id)
    requires Redeems(e, w, c, u)
    ensures c.request.ResetRedeem?
  {
    hide Step, Admissible;
  }

  lemma {:induction false} ResetCause(e: Env, w: World, c: Call, u: Id)
    requires Redeems(e, w, c, u)
    ensures ProvesReset(e, w, c, u)
  {
    hide Redeems;
    RedeemedRowIs(e, w, c, u);
    assert Redeems(e, w, c, u) ==> c.request.ResetRedeem? by { RedeemsIs(e, w, c, u); }
  }

  lemma {:induction false} FreshAccount(e: Env, w: World, c: Call)
    requires Admissible(e, w, c) && (c.request.SignUp? || c.request.UserCreation?)
    ensures c.request.id !in w.store.users
  {
    hide Drawn;
  }

  lemma {:induction false} RedeemsByHash(e: Env, w: World, c: Call, u: Id)
    requires Admissible(e, w, c) && c.request.ResetRedeem? && NewHash(e, w, c, u).Some?
    ensures Redeems(e, w, c, u)
  {
    hide Step, Admissible;
  }

  /** A stored hash changes only when the current password, or a good reset token, is given. */
  lemma {:induction false} HashCause(e: Env, w: World, c: Call, u: Id)
    requires Admissible(e, w, c) && u in w.store.users
    ensures u in Step(e, w, c).0.store.users
    ensures Step(e, w, c).0.store.users[u].passwordHash != w.store.users[u].passwordHash ==>
              ProvesPassword(e, w, c, u) || ProvesReset(e, w, c, u)
  {
    StepAccount(e, w, c, u);
    hide Step, ProvesReset, Redeems;
    match c.request
    case SignUp(_, _, _, _) => FreshAccount(e, w, c);
    case UserCreation(_, _, _, _) => FreshAccount(e, w, c);
    case PasswordChange(_, _, _) => PasswordChangeExact(e, w, c);
    case ResetRedeem(_, _) =>
      if NewHash(e, w, c, u).Some? {
        assert Redeems(e, w, c, u) by { RedeemsByHash(e, w, c, u); }
        ResetCause(e, w, c, u);
      }
    case _ =>
  }

  /** Over every trace: if the hash of an account differs between two states, some call in between gave
      its current password or a good reset token of it. */
  lemma {:induction false} TraceHashCause(e: Env, ws: seq<World>, cs: seq<Call>, i: nat, j: nat, u: Id)
    returns (k: nat)
    requires Trace(e, ws, cs) && i <= j < |ws| && u in ws[i].store.users
    requires u in ws[j].store.users ==> ws[j].store.users[u].passwordHash != ws[i].store.users[u].passwordHash
    ensures i <= k < j && k < |cs| && (ProvesPassword(e, ws[k], cs[k], u) || ProvesReset(e, ws[k], cs[k], u))
    decreases j - i
  {
    hide Step, Admissible, ProvesPassword, ProvesReset;
    TraceStep(e, ws, cs, i);
    HashCause(e, ws[i], cs[i], u);
    if ws[i + 1].store.users[u].passwordHash != ws[i].store.users[u].passwordHash {
      k := i;
    } else {
      k := TraceHashCause(e, ws, cs, i + 1, j, u);
    }
  }

  // ----- the second factor ---------------------------------------------------

  /** `u` is enrolled, asks for it to be switched off, and gives a code that verification accepts. */
  ghost predicate ProvesFactor(e: Env, w: World, c: Call, u: Id)
    requires Admissible(e, w, c)
  {
    && c.request.FactorDisable? && c.request.userId == u && Present(w.store.users, u)
    && w.store.users[u].twoFactorEnabled
    && Accepted(VerifyCode(e.factors, w.store.codes, u, w.store.users[u], c.request.code, c.request.order, c.at).1)
  }

  lemma {:induction false} SetupKeepsFactor(e: Env, w: World, c: Call, u: Id)
    requires Admissible(e, w, c) && c.request.FactorSetup? && u in w.store.users
    ensures var users' := Step(e, w, c).0.store.users;
            u in users' && users'[u].twoFactorEnabled == w.store.users[u].twoFactorEnabled
  {
    SetupExact(e, w, c);
    hide Step, Admissible;
  }

  lemma {:induction false} DisableCause(e: Env, w: World, c: Call, u: Id)
    requires Admissible(e, w, c) && c.request.FactorDisable? && c.request.userId == u && Step(e, w, c).1.Done?
    ensures ProvesFactor(e, w, c, u)
  {
    DisableExact(e, w, c);
    hide Step, VerifyCode, DeleteAllForUser, Lists;
  }

  /** A second factor goes off only by a disabling call for its account with an accepted code. */
  lemma {:induction false} FactorCause(e: Env, w: World, c: Call, u: Id)
    requires Admissible(e, w, c) && u in w.store.users && w.store.users[u].twoFactorEnabled
    ensures var users' := Step(e, w, c).0.store.users;
            u in users' && (users'[u].twoFactorEnabled || ProvesFactor(e, w, c, u))
  {
    hide Step, ProvesFactor;
    StepAccount(e, w, c, u);
    if !Rekeys(e, w, c, u) {
      StepSecret(e, w, c, u);
    } else if c.request.FactorSetup? {
      SetupKeepsFactor(e, w, c, u);
    } else {
      DisableCause(e, w, c, u);
    }
  }

  /** Over every trace: an account enrolled once and not enrolled later was taken off by such a call. */
  lemma {:induction false} TraceFactorCause(e: Env, ws: seq<World>, cs: seq<Call>, i: nat, j: nat, u: Id)
    returns (k: nat)
    requires Trace(e, ws, cs) && i <= j < |ws|
    requires u in ws[i].store.users && ws[i].store.users[u].twoFactorEnabled
    requires u in ws[j].store.users ==> !ws[j].store.users[u].twoFactorEnabled
    ensures i <= k < j && k < |cs| && ProvesFactor(e, ws[k], cs[k], u)
    decreases j - i
  {
    hide Step, Admissible, ProvesFactor;
    TraceStep(e, ws, cs, i);
    FactorCause(e, ws[i], cs[i], u);
    if !ws[i + 1].store.users[u].twoFactorEnabled {
      k := i;
    } else {
      k := TraceFactorCause(e, ws, cs, i + 1, j, u);
    }
  }

  // ----- refresh tokens ------------------------------------------------------

  /** The only row a session start or a renewal adds and leaves unrevoked is the one whose token it hands
      out. */
  ghost predicate Hands(t: Table, t': Table, a: Answer, id: Id) {
    id !in t && id in t' && t'[id].revokedAt.None? ==>
      a.Session? && Parse(a.refresh).Some? && Parse(a.refresh).value.id == id
  }

  lemma {:induction false} StartHands(e: Env, s: Store, userId: Id, g: Grant, now: int, id: Id)
    requires Drawn(s.tokens, g)
    ensures var (s', a) := StartSession(e, s, userId, g, now); Hands(s.tokens, s'.tokens, a, id)
  {
    ParseRaw(s.tokens, g);
    hide Parse, RawToken;
  }

  lemma {:induction false} LoginHands(e: Env, s: Store, email: string, password: string, g: Grant, now: int, id: Id)
    requires Drawn(s.tokens, g)
    ensures var (s', a) := Login(e, s, email, password, g, now); Hands(s.tokens, s'.tokens, a, id)
  {
    hide LoginCheck, Drawn, StartSession;
    var (users', c) := LoginCheck(e, s, email, password, now);
    if c.Valid? {
      StartHands(e, s.(users := users'), c.id, g, now, id);
    }
  }

  lemma {:induction false} SecondStepHands(
      e: Env, s: Store, payload: Option<Jwt>, code: string, order: seq<Id>, g: Grant, now: int, id: Id)
    requires payload.Some? ==> Auth.Listed(s, payload.value.sub, order)
    requires Drawn(s.tokens, g)
    ensures var (s', a) := LoginSecondFactor(e, s, payload, code, order, g, now); Hands(s.tokens, s'.tokens, a, id)
  {
    hide VerifyCode, Drawn, StartSession, Lists;
    match ChallengedUser(s, payload)
    case None =>
    case Some(user) =>
      var u := payload.value.sub;
      var codes' := VerifyCode(e.factors, s.codes, u, user, code, order, now).0;
      StartHands(e, s.(codes := codes'), u, g, now, id);
  }

  lemma {:induction false} RegisterHands(
      e: Env, s: Store, email: string, hash: string, u: Id, g: Grant, now: int, id: Id)
    requires Drawn(s.tokens, g)
    ensures var (s', a) := Register(e, s, email, hash, u, g, now); Hands(s.tokens, s'.tokens, a, id)
  {
    hide Drawn, StartSession;
    StartHands(e, CreateUser(s, email, hash, None, u).0, u, g, now, id);
  }

  lemma {:induction false} RefreshHands(e: Env, s: Store, raw: string, g: Grant, now: int, id: Id)
    requires Drawn(s.tokens, g)
    ensures var (s', a) := Refresh(e, s, raw, g, now); Hands(s.tokens, s'.tokens, a, id)
  {
    RotateSwaps(e.sessions, s.tokens, raw, g, now);
    ParseRaw(s.tokens, g);
    hide Rotate, Check, Parse, RawToken;
  }

  lemma {:induction false} NoRowAdded(e: Env, w: World, c: Call, id: Id)
    requires Admissible(e, w, c)
    requires !c.request.SignUp? && !c.request.SignIn? && !c.request.SecondStep? && !c.request.Renewal?
    ensures id in Step(e, w, c).0.store.tokens ==> id in w.store.tokens
  {
    KeysKept(e, w, c);
    hide Step, Admissible;
  }

  lemma {:induction false} StepHands(e: Env, w: World, c: Call, id: Id)
    requires Admissible(e, w, c)
    ensures Hands(w.store.tokens, Step(e, w, c).0.store.tokens, Step(e, w, c).1, id)
  {
    var s := w.store;
    hide Drawn, Auth.Listed, Fresh, Register, Login, LoginSecondFactor, Refresh, Logout, RevokeAllForUser,
         Auth.Reset, EnableTwoFactor, DisableTwoFactor, Parse, FindByEmail, FindByHash;
    match c.request
    case SignUp(email, hash, u, g) => RegisterHands(e, s, email, hash, u, g, c.at, id);
    case SignIn(email, password, g) => LoginHands(e, s, email, password, g, c.at, id);
    case SecondStep(token, code, order, g) =>
      SecondStepHands(e, s, VerifyJwt(w, token, c.at), code, order, g, c.at, id);
    case Renewal(raw, g) => RefreshHands(e, s, raw, g, c.at, id);
    case _ => NoRowAdded(e, w, c, id);
  }

  lemma {:induction false} RotationShows(e: Env, w: World, c: Call)
    requires Rotates(e, w, c)
    ensures var p, r, t := Parse(c.request.raw), RotationAt(e, w, c), w.store.tokens;
            && p.Some? && p.value.id in t && t[p.value.id].revokedAt.None? && c.at <= t[p.value.id].expiresAt
            && e.sessions.sha256(p.value.secret) == t[p.value.id].tokenHash && r.userId == t[p.value.id].userId
  {
    RotateExact(e.sessions, w.store.tokens, c.request.raw, c.request.grant, c.at);
    hide Rotate, Parse, Drawn;
  }

  lemma {:induction false} HandedRow(t: Table, t': Table, id: Id)
    requires Evolves(t, t') && id in t && id in t' && t'[id].revokedAt.None?
    ensures t[id].revokedAt.None? && t'[id].tokenHash == t[id].tokenHash && t'[id].userId == t[id].userId
  {
    assert RowEvolves(t[id], t'[id]);
  }

  lemma {:induction false} RotatesIs(e: Env, w: World, c: Call)
    requires Rotates(e, w, c)
    ensures c.request.Renewal? && Admissible(e, w, c)
  {
    hide RotationAt;
  }

  /** Over every trace from an empty table: whoever rotates names the row of a refresh token that an
      earlier answer handed to that user, and shows a secret with the hash of the one handed out. */
  lemma {:induction false} SecretNeeded(e: Env, ws: seq<World>, cs: seq<Call>, j: nat) returns (i: nat)
    requires Trace(e, ws, cs) && j < |cs| && ws[0].store.tokens == map[] && Rotates(e, ws[j], cs[j])
    ensures i < j && AnswerAt(e, ws, cs, i).Session?
    ensures var a, p := AnswerAt(e, ws, cs, i), Parse(cs[j].request.raw);
            var q := Parse(a.refresh);
            && p.Some? && q.Some? && p.value.id == q.value.id
            && e.sessions.sha256(p.value.secret) == e.sessions.sha256(q.value.secret)
            && a.userId == RotationAt(e, ws[j], cs[j]).userId
  {
    hide Step, Admissible, Rotates, RotationAt, WellLinked, Evolves, Parse;
    assert cs[j].request.Renewal? by { RotatesIs(e, ws[j], cs[j]); }
    RotationShows(e, ws[j], cs[j]);
    var id := Parse(cs[j].request.raw).value.id;
    i := RowOrigin(e, ws, cs, j, id);
    EmptyLinked();
    TraceTokens(e, ws, cs, 0, i + 1);
    TraceTokens(e, ws, cs, i + 1, j);
    HandedRow(ws[i + 1].store.tokens, ws[j].store.tokens, id);
    TraceStep(e, ws, cs, i);
    StepHands(e, ws[i], cs[i], id);
    StepBacked(e, ws[i], cs[i]);
  }
}
