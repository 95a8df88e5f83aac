/** The second factor over every trace: who can start a session while it is enabled, what enrolment
    keeps, and how often recovery codes work. */
module FactorSafety {
  import opened Text
  import Totp
  import Base32
  import opened TokenTable
  import opened Sessions
  import opened Accounts
  import opened SecondFactor
  import opened Resets
  import opened Auth
  import opened World
  import opened LockoutSafety

  // ----- challenge and access tokens -----------------------------------------

  /** No token authenticates a request and also counts as a challenge. */
  lemma {:induction false} KindsDisjoint(users: Users, s: Store, token: Jwt)
    ensures !(Authenticate(users, token).Some? && ChallengedUser(s, Some(token)).Some?)
    ensures ChallengedUser(s, Some(token)).Some? ==> token.typ == TwoFactorType
    ensures Authenticate(users, token).Some? <==>
            token.typ != TwoFactorType && LiveUser(users, token.sub)
  {
  }

  /** The call signs this challenge: a login whose password was right, for an account with the second
      factor enabled. */
  ghost predicate Challenges(e: Env, w: World, c: Call, token: Jwt)
    requires Admissible(e, w, c)
  {
    && c.request.SignIn? && Attempt(e, w, c).Valid? && Attempt(e, w, c).id == token.sub
    && token.sub in w.store.users && w.store.users[token.sub].twoFactorEnabled
    && e.factors.argon2(w.store.users[token.sub].passwordHash, c.request.password) == Match
    && token == ChallengeToken(e, token.sub, c.at)
  }

  lemma {:induction false} LoginChallenge(e: Env, s: Store, email: string, password: string, g: Grant, now: int)
    ensures var (s', a) := Login(e, s, email, password, g, now);
            a.Challenge? ==>
              var c := LoginCheck(e, s, email, password, now).1;
              && c.Valid? && c.id in s.users && c.entity == s.users[c.id]
              && s.users[c.id].twoFactorEnabled
              && e.factors.argon2(s.users[c.id].passwordHash, password) == Match
              && a.token == ChallengeToken(e, c.id, now)
  {
    hide Issue;
  }

  lemma {:induction false} SessionIsAccess(e: Env, s: Store, email: string, password: string, g: Grant, now: int)
    ensures var a := Login(e, s, email, password, g, now).1;
            a.Challenge? || a.Rejected? || (a.Session? && a.access.typ == Absent)
  {
    hide Issue, LoginCheck;
  }

  lemma {:induction false} SignedChallenge(e: Env, w: World, c: Call, token: Jwt)
    requires Admissible(e, w, c) && token in Signed(Step(e, w, c).1) && token.typ == TwoFactorType
    ensures Challenges(e, w, c, token)
  {
    hide Drawn, Listed, Fresh, VerifyCode, Rotate, Issue, RevokeAllForUser, Logout, LoginCheck, Login,
         Enable, Disable, RedeemedRow;
    match c.request
    case SignIn(email, password, g) =>
      LoginChallenge(e, w.store, email, password, g, c.at);
      SessionIsAccess(e, w.store, email, password, g, c.at);
    case _ =>
  }

  /** Every challenge in circulation was signed by an earlier login of its account. */
  lemma {:induction false} ChallengeOrigin(e: Env, ws: seq<World>, cs: seq<Call>, j: nat, token: Jwt)
    returns (i: nat)
    requires Trace(e, ws, cs) && j < |ws| && ws[0].jwts == {}
    requires token in ws[j].jwts && token.typ == TwoFactorType
    ensures i < j && i < |cs| && Challenges(e, ws[i], cs[i], token)
    decreases j
  {
    hide Serve, Challenges, Admissible, Signed;
    TraceStep(e, ws, cs, j - 1);
    if token in ws[j - 1].jwts {
      i := ChallengeOrigin(e, ws, cs, j - 1, token);
    } else {
      SignedChallenge(e, ws[j - 1], cs[j - 1], token);
      i := j - 1;
    }
  }

  // ----- where sessions start ------------------------------------------------

  /** The second step of a login for `u`: an unexpired challenge and an accepted code. */
  ghost predicate Completes(e: Env, w: World, c: Call, u: Id)
    requires Admissible(e, w, c)
  {
    && c.request.SecondStep? && c.request.token in w.jwts && c.at < c.request.token.exp
    && c.request.token.typ == TwoFactorType && c.request.token.sub == u
    && u in w.store.users && w.store.users[u].twoFactorEnabled
    && Accepted(VerifyCode(e.factors, w.store.codes, u, w.store.users[u], c.request.code,
                           c.request.order, c.at).1)
  }

  /** A call creates a row for `u` that continues none of its sessions. */
  ghost predicate NewPath(t: Table, t': Table, u: Id) {
    exists id :: id in t' && id !in t && t'[id].userId == u && !HasPredecessor(t', id)
  }

  lemma {:induction false} IssuedOnly(c: Config, t: Table, v: Id, g: Grant, now: int, u: Id)
    requires NewPath(t, Issue(c, t, v, g, now), u)
    ensures u == v
  {
  }

  lemma {:induction false} NoPath(t: Table, u: Id)
    ensures !NewPath(t, t, u)
  {
  }

  lemma {:induction false} LoginPaths(e: Env, s: Store, email: string, password: string, g: Grant, now: int, u: Id)
    requires NewPath(s.tokens, Login(e, s, email, password, g, now).0.tokens, u)
    ensures u in s.users && !s.users[u].twoFactorEnabled
  {
    hide Issue, NewPath;
    var (users', c) := LoginCheck(e, s, email, password, now);
    if Login(e, s, email, password, g, now).1.Session? {
      IssuedOnly(e.sessions, s.tokens, c.id, g, now, u);
    } else {
      NoPath(s.tokens, u);
    }
  }

  lemma {:induction false} RevokeAllPaths(t: Table, t': Table, v: Id, now: int, u: Id)
    requires NewPath(t, RevokeAllForUser(t', v, now), u)
    ensures NewPath(t, t', u)
  {
    var id :| id in RevokeAllForUser(t', v, now) && id !in t && t'[id].userId == u
              && !HasPredecessor(RevokeAllForUser(t', v, now), id);
    forall p | p in t'
      ensures t'[p].replacedById != Some(id)
    {
      assert RevokeAllForUser(t', v, now)[p].replacedById == t'[p].replacedById;
    }
  }

  lemma {:induction false} SwapPaths(c: Config, t: Table, id: Id, g: Grant, now: int, u: Id)
    requires Drawn(t, g) && id in t
    ensures !NewPath(t, Swapped(c, t, id, g, now), u)
  {
    var t' := Swapped(c, t, id, g, now);
    assert t'[id].replacedById == Some(g.id);
    assert HasPredecessor(t', g.id);
  }

  lemma {:induction false} RefreshPaths(e: Env, s: Store, raw: string, g: Grant, now: int, u: Id)
    requires Drawn(s.tokens, g)
    ensures !NewPath(s.tokens, Refresh(e, s, raw, g, now).0.tokens, u)
  {
    var t := s.tokens;
    RotateSwaps(e.sessions, t, raw, g, now);
    NoPath(t, u);
    hide NewPath, RevokeAllForUser, Swapped, Drawn, RawToken;
    match Check(e.sessions, t, raw, now)
    case None =>
      var id := Parse(raw).value.id;
      SwapPaths(e.sessions, t, id, g, now, u);
      if NewPath(t, RevokeAllForUser(Swapped(e.sessions, t, id, g, now), t[id].userId, now), u) {
        RevokeAllPaths(t, Swapped(e.sessions, t, id, g, now), t[id].userId, now, u);
      }
    case Some(_) =>
      var v := if Check(e.sessions, t, raw, now) == Some(Reused) then t[Parse(raw).value.id].userId else u;
      if NewPath(t, RevokeAllForUser(t, v, now), u) {
        RevokeAllPaths(t, t, v, now, u);
      }
  }

  lemma {:induction false} SameRows(t: Table, t': Table, u: Id)
    requires t'.Keys == t.Keys
    ensures !NewPath(t, t', u)
  {
  }

  lemma {:induction false} SecondStepPaths(e: Env, w: World, c: Call, u: Id)
    requires Admissible(e, w, c) && c.request.SecondStep?
    requires NewPath(w.store.tokens, Step(e, w, c).0.store.tokens, u)
    ensures Completes(e, w, c, u)
  {
    var s, t, q := w.store, w.store.tokens, c.request;
    NoPath(t, u);
    hide NewPath, Issue, Drawn, VerifyCode;
    if Step(e, w, c).1.Session? {
      IssuedOnly(e.sessions, t, q.token.sub, q.grant, c.at, u);
    }
  }

  lemma {:induction false} KeysKept(e: Env, w: World, c: Call)
    requires Admissible(e, w, c)
    requires !c.request.SignUp? && !c.request.SignIn? && !c.request.SecondStep? && !c.request.Renewal?
    ensures Step(e, w, c).0.store.tokens.Keys == w.store.tokens.Keys
  {
    hide Drawn, Listed, Fresh, VerifyCode, RedeemedRow, FindByEmail, FindByHash;
  }

  /** While an account has its second factor enabled, only completing a challenged login starts a
      session for it. */
  lemma {:induction false} StepPaths(e: Env, w: World, c: Call, u: Id)
    requires Admissible(e, w, c) && u in w.store.users && w.store.users[u].twoFactorEnabled
    requires NewPath(w.store.tokens, Step(e, w, c).0.store.tokens, u)
    ensures Completes(e, w, c, u)
  {
    var s, t := w.store, w.store.tokens;
    hide NewPath, Issue, Drawn, Listed, Fresh, Login, LoginSecondFactor, Refresh, Reset, EnableTwoFactor,
         DisableTwoFactor, RevokeAllForUser, Logout, Completes;
    match c.request
    case SignUp(_, _, id, g) =>
      if NewPath(t, Issue(e.sessions, t, id, g, c.at), u) {
        IssuedOnly(e.sessions, t, id, g, c.at, u);
      } else {
        NoPath(t, u);
      }
    case SignIn(email, password, g) => LoginPaths(e, s, email, password, g, c.at, u);
    case SecondStep(_, _, _, _) => SecondStepPaths(e, w, c, u);
    case Renewal(raw, g) => RefreshPaths(e, s, raw, g, c.at, u);
    case _ =>
      KeysKept(e, w, c);
      SameRows(t, Step(e, w, c).0.store.tokens, u);
  }

  /** Over every trace: a session started while the second factor is enabled was completed with an
      accepted code, for a challenge signed by an earlier login with the right password, at most the
      challenge's lifetime before. */
  lemma {:induction false} SecondFactorNeeded(e: Env, ws: seq<World>, cs: seq<Call>, j: nat, u: Id)
    returns (i: nat)
    requires Trace(e, ws, cs) && j < |cs| && ws[0].jwts == {}
    requires u in ws[j].store.users && ws[j].store.users[u].twoFactorEnabled
    requires NewPath(ws[j].store.tokens, ws[j + 1].store.tokens, u)
    ensures i < j && Completes(e, ws[j], cs[j], u) && Challenges(e, ws[i], cs[i], cs[j].request.token)
    ensures cs[j].at < cs[i].at + e.challengeTtl
  {
    TraceStep(e, ws, cs, j);
    hide Step, NewPath, Admissible;
    StepPaths(e, ws[j], cs[j], u);
    i := ChallengeOrigin(e, ws, cs, j, cs[j].request.token);
  }

  // ----- enrolment -----------------------------------------------------------

  /** An account with the second factor enabled has a secret and exactly ten recovery rows, one
      without has none. */
  ghost predicate FactorOk(s: Store, u: Id) {
    var enabled := u in s.users && s.users[u].twoFactorEnabled;
    && (enabled ==> HasSecret(s.users[u]))
    && |Owned(s.codes, u)| == if enabled then 10 else 0
  }

  /** Nothing about `u` that `FactorOk` looks at changes. */
  ghost predicate SameFactor(s: Store, s': Store, u: Id) {
    && s'.codes == s.codes
    && (u in s.users <==> u in s'.users)
    && (u in s.users ==>
          && s'.users[u].twoFactorEnabled == s.users[u].twoFactorEnabled
          && s'.users[u].twoFactorSecret == s.users[u].twoFactorSecret)
  }

  lemma {:induction false} LoginFactor(e: Env, s: Store, email: string, password: string, g: Grant, now: int, u: Id)
    ensures SameFactor(s, Login(e, s, email, password, g, now).0, u)
  {
    hide Issue;
    LoginKeys(e, s, email, password, g, now);
    if u in s.users {
      AttemptEffect(e.factors.argon2, e.lockout, s.users, email, password, now, u);
      hide ValidateCredentials;
    }
  }

  lemma {:induction false} OtherFactor(e: Env, w: World, c: Call, u: Id)
    requires Admissible(e, w, c)
    requires !c.request.SignUp? && !c.request.UserCreation? && !c.request.SecondStep?
    requires !c.request.FactorSetup? && !c.request.FactorEnable? && !c.request.FactorDisable?
    ensures SameFactor(w.store, Step(e, w, c).0.store, u)
  {
    hide Drawn, Listed, Fresh, VerifyCode, Rotate, LoginCheck, Issue, RevokeAllForUser, Logout, Login,
         InvalidateAllForUser, RedeemedRow, Register, CreateUser, LoginSecondFactor, Setup, EnableTwoFactor,
         DisableTwoFactor;
    match c.request
    case SignIn(email, password, g) => LoginFactor(e, w.store, email, password, g, c.at, u);
    case _ =>
  }

  lemma {:induction false} CreateFactor(s: Store, email: string, hash: string, active: Option<bool>, id: Id, u: Id)
    requires id !in s.users && FactorOk(s, u)
    ensures FactorOk(CreateUser(s, email, hash, active, id).0, u)
  {
    hide Owned;
  }

  lemma {:induction false} RegisterFactor(
      e: Env, s: Store, email: string, hash: string, id: Id, g: Grant, now: int, u: Id)
    requires id !in s.users && FactorOk(s, u)
    ensures FactorOk(Register(e, s, email, hash, id, g, now).0, u)
  {
    hide Issue, Owned;
  }

  lemma {:induction false} SecondStepFactor(
      e: Env, s: Store, payload: Option<Jwt>, code: string, order: seq<Id>, g: Grant, now: int, u: Id)
    requires payload.Some? ==> Listed(s, payload.value.sub, order)
    requires FactorOk(s, u)
    ensures FactorOk(LoginSecondFactor(e, s, payload, code, order, g, now).0, u)
  {
    match ChallengedUser(s, payload)
    case None =>
    case Some(user) =>
      VerifyEffect(e.factors, s.codes, payload.value.sub, user, code, order, now, u);
      hide VerifyCode, Issue, Owned, Unused;
  }

  lemma {:induction false} SetupFactor(s: Store, v: Id, random: seq<Base32.Byte>, u: Id)
    requires |random| == 20 && FactorOk(s, u)
    ensures FactorOk(Setup(s, v, random).0, u)
  {
    Base32.EncodedSlices(random);
    hide Base32.Encoded, Owned;
  }

  lemma {:induction false} ReplaceOwned(codes: Codes, v: Id, ids: seq<Id>, hashes: seq<string>, u: Id)
    requires Fresh(codes, ids, hashes)
    ensures |Owned(ReplaceCodes(codes, v, ids, hashes), u)| == if u == v then 10 else |Owned(codes, u)|
  {
    ReplaceEffect(codes, v, ids, hashes, u);
    hide Owned, Unused, Fresh, ReplaceCodes;
  }

  lemma {:induction false} EnableRefused(
      e: Env, s: Store, v: Id, code: string, ids: seq<Id>, hashes: seq<string>, now: int)
    requires Fresh(s.codes, ids, hashes) && !EnableTwoFactor(e, s, v, code, ids, hashes, now).1.Done?
    ensures EnableTwoFactor(e, s, v, code, ids, hashes, now).0 == s
  {
    hide Fresh, ReplaceCodes, Totp.Verified;
  }

  lemma {:induction false} EnableFactor(
      e: Env, s: Store, v: Id, code: string, ids: seq<Id>, hashes: seq<string>, now: int, u: Id)
    requires Fresh(s.codes, ids, hashes) && FactorOk(s, u)
    ensures FactorOk(EnableTwoFactor(e, s, v, code, ids, hashes, now).0, u)
  {
    hide Fresh, ReplaceCodes, Totp.Verified, Owned, Unused;
    var (s', a) := EnableTwoFactor(e, s, v, code, ids, hashes, now);
    if a.Done? {
      ReplaceOwned(s.codes, v, ids, hashes, u);
    } else {
      EnableRefused(e, s, v, code, ids, hashes, now);
    }
  }

  lemma {:induction false} DisableFactor(e: Env, s: Store, v: Id, code: string, order: seq<Id>, now: int, u: Id)
    requires Listed(s, v, order) && FactorOk(s, u)
    ensures FactorOk(DisableTwoFactor(e, s, v, code, order, now).0, u)
  {
    match FindById(s.users, v)
    case None =>
    case Some(user) =>
      VerifyEffect(e.factors, s.codes, v, user, code, order, now, u);
      DeleteEffect(VerifyCode(e.factors, s.codes, v, user, code, order, now).0, v, u);
      hide VerifyCode, DeleteAllForUser, Owned, Unused;
  }

  lemma {:induction false} SameFactorOk(s: Store, s': Store, u: Id)
    requires SameFactor(s, s', u) && FactorOk(s, u)
    ensures FactorOk(s', u)
  {
  }

  lemma {:induction false} StepFactor(e: Env, w: World, c: Call, u: Id)
    requires Admissible(e, w, c) && FactorOk(w.store, u)
    ensures FactorOk(Step(e, w, c).0.store, u)
  {
    var s := w.store;
    hide FactorOk, SameFactor, Drawn, Fresh, Register, CreateUser, LoginSecondFactor, Setup, EnableTwoFactor,
         DisableTwoFactor;
    match c.request
    case SignUp(email, hash, id, g) => RegisterFactor(e, s, email, hash, id, g, c.at, u);
    case UserCreation(email, hash, active, id) => CreateFactor(s, email, hash, active, id, u);
    case SecondStep(token, code, order, g) =>
      SecondStepFactor(e, s, VerifyJwt(w, token, c.at), code, order, g, c.at, u);
    case FactorSetup(v, random) => SetupFactor(s, v, random, u);
    case FactorEnable(v, code, ids, hashes) => EnableFactor(e, s, v, code, ids, hashes, c.at, u);
    case FactorDisable(v, code, order) => DisableFactor(e, s, v, code, order, c.at, u);
    case _ =>
      OtherFactor(e, w, c, u);
      SameFactorOk(s, Step(e, w, c).0.store, u);
  }

  /** In every state of every trace: enabled means a secret and ten recovery rows, disabled none. */
  lemma {:induction false} TraceFactor(e: Env, ws: seq<World>, cs: seq<Call>, j: nat, u: Id)
    requires Trace(e, ws, cs) && j < |ws| && FactorOk(ws[0].store, u)
    ensures FactorOk(ws[j].store, u)
    decreases j
  {
    hide Step, FactorOk, Admissible;
    if j == 0 {
    } else {
      TraceFactor(e, ws, cs, j - 1, u);
      StepFactor(e, ws[j - 1], cs[j - 1], u);
    }
  }

  // ----- recovery codes ------------------------------------------------------

  function UsedBy(v: Verification): Option<Id> {
    if v.ByRecovery? then Some(v.id) else None
  }

  /** The recovery code of `u` that the call consumes. */
  ghost function Uses(e: Env, w: World, c: Call, u: Id): Option<Id>
    requires Admissible(e, w, c)
  {
    match c.request
    case SecondStep(token, code, order, _) =>
      if token.sub == u && ChallengedUser(w.store, VerifyJwt(w, token, c.at)).Some? then
        UsedBy(VerifyCode(e.factors, w.store.codes, u, w.store.users[u], code, order, c.at).1)
      else None
    case FactorDisable(userId, code, order) =>
      if userId == u then
        UsedBy(Disable(e.factors, w.store.users, w.store.codes, u, code, order, c.at).3)
      else None
    case _ => None
  }

  /** The call starts or ends an enrolment of `u`. */
  ghost predicate Reenrols(e: Env, w: World, c: Call, u: Id)
    requires Admissible(e, w, c)
  {
    (c.request.FactorEnable? || c.request.FactorDisable?) && c.request.userId == u && Step(e, w, c).1.Done?
  }

  /** The text the call offers as a code, as it is compared with the recovery codes. */
  function Offered(c: Call): string
    requires c.request.SecondStep? || c.request.FactorDisable?
  {
    Lower(Trim(c.request.code))
  }

  /** The rows of `u` stay the same rows with the same hashes, `gone` is what turns used. */
  ghost predicate Consumes(codes: Codes, codes': Codes, u: Id, gone: set<Id>) {
    && Owned(codes', u) == Owned(codes, u)
    && (forall id :: id in Owned(codes, u) ==> codes'[id].codeHash == codes[id].codeHash)
    && gone <= Unused(codes, u) && Unused(codes', u) == Unused(codes, u) - gone
  }

  function Only(id: Option<Id>): set<Id> {
    if id.Some? then {id.value} else {}
  }

  lemma {:induction false} OwnedRows(codes: Codes, u: Id)
    ensures forall id :: id in Owned(codes, u) ==> id in codes
    ensures forall id :: id in Unused(codes, u) ==> id in codes && id in Owned(codes, u)
  {
  }

  lemma {:induction false} VerifyHashes(
      f: Factors, codes: Codes, v: Id, user: User, code: string, order: seq<Id>, now: int)
    requires Lists(order, Unused(codes, v))
    ensures var codes' := VerifyCode(f, codes, v, user, code, order, now).0;
            forall id :: id in codes ==> id in codes' && codes'[id].codeHash == codes[id].codeHash
  {
    hide Totp.Verified, Lower, Trim;
  }

  lemma {:induction false} VerifyConsumes(
      f: Factors, codes: Codes, v: Id, user: User, code: string, order: seq<Id>, now: int, u: Id)
    requires Lists(order, Unused(codes, v))
    ensures var (codes', r) := VerifyCode(f, codes, v, user, code, order, now);
            && Consumes(codes, codes', u, if u == v then Only(UsedBy(r)) else {})
            && (r.ByRecovery? ==> r.id in codes && f.argon2(codes[r.id].codeHash, Lower(Trim(code))) == Match)
  {
    hide VerifyCode, Lists, Lower, Trim, Unused, Owned;
    VerifyEffect(f, codes, v, user, code, order, now, u);
    VerifyHashes(f, codes, v, user, code, order, now);
    OwnedRows(codes, u);
    OwnedRows(codes, v);
  }

  lemma {:induction false} NothingConsumed(codes: Codes, u: Id)
    ensures Consumes(codes, codes, u, {})
  {
  }

  lemma {:induction false} SecondStepConsumes(e: Env, w: World, c: Call, u: Id)
    requires Admissible(e, w, c) && c.request.SecondStep?
    ensures var codes := w.store.codes;
            && Consumes(codes, Step(e, w, c).0.store.codes, u, Only(Uses(e, w, c, u)))
            && (Uses(e, w, c, u).Some? ==>
                  var id := Uses(e, w, c, u).value;
                  id in codes && e.factors.argon2(codes[id].codeHash, Offered(c)) == Match)
  {
    var s, q := w.store, c.request;
    var payload := VerifyJwt(w, q.token, c.at);
    NothingConsumed(s.codes, u);
    hide Consumes, VerifyCode, Issue, Drawn, Lower, Trim;
    if ChallengedUser(s, payload).Some? {
      VerifyConsumes(e.factors, s.codes, q.token.sub, s.users[q.token.sub], q.code, q.order, c.at, u);
    }
  }

  lemma {:induction false} EnableConsumes(
      e: Env, s: Store, v: Id, code: string, ids: seq<Id>, hashes: seq<string>, now: int, u: Id)
    requires Fresh(s.codes, ids, hashes)
    requires EnableTwoFactor(e, s, v, code, ids, hashes, now).1.Done? ==> u != v
    ensures Consumes(s.codes, EnableTwoFactor(e, s, v, code, ids, hashes, now).0.codes, u, {})
  {
    hide Totp.Verified;
    ReplaceEffect(s.codes, v, ids, hashes, u);
    assert u != v ==> Consumes(s.codes, ReplaceCodes(s.codes, v, ids, hashes), u, {}) by {
      if u != v {
        forall id | id in Owned(s.codes, u)
          ensures ReplaceCodes(s.codes, v, ids, hashes)[id].codeHash == s.codes[id].codeHash
        {
          assert id !in ids;
        }
      }
    }
    NothingConsumed(s.codes, u);
    hide Consumes, ReplaceCodes, Fresh;
  }

  /** Disabling that does not go through touches no recovery code. */
  lemma {:induction false} DisableRefused(e: Env, s: Store, v: Id, code: string, order: seq<Id>, now: int)
    requires Listed(s, v, order) && !DisableTwoFactor(e, s, v, code, order, now).1.Done?
    ensures DisableTwoFactor(e, s, v, code, order, now).0.codes == s.codes
    ensures UsedBy(Disable(e.factors, s.users, s.codes, v, code, order, now).3).None?
  {
    if FindById(s.users, v).Some? {
      VerifyEffect(e.factors, s.codes, v, s.users[v], code, order, now, v);
      hide VerifyCode, DeleteAllForUser, Lists, Unused, Owned;
    }
  }

  lemma {:induction false} DeleteConsumes(codes: Codes, codes': Codes, v: Id, u: Id)
    requires u != v && Consumes(codes, codes', u, {})
    ensures Consumes(codes, DeleteAllForUser(codes', v), u, {})
  {
    DeleteEffect(codes', v, u);
  }

  lemma {:induction false} DisableOther(e: Env, s: Store, v: Id, code: string, order: seq<Id>, now: int, u: Id)
    requires Listed(s, v, order) && u != v
    ensures Consumes(s.codes, DisableTwoFactor(e, s, v, code, order, now).0.codes, u, {})
  {
    hide Consumes, VerifyCode, DeleteAllForUser, Lists;
    NothingConsumed(s.codes, u);
    if FindById(s.users, v).Some? {
      var codes' := VerifyCode(e.factors, s.codes, v, s.users[v], code, order, now).0;
      VerifyConsumes(e.factors, s.codes, v, s.users[v], code, order, now, u);
      DeleteConsumes(s.codes, codes', v, u);
    }
  }

  lemma {:induction false} CodesKept(e: Env, w: World, c: Call)
    requires Admissible(e, w, c)
    requires !c.request.SecondStep? && !c.request.FactorEnable? && !c.request.FactorDisable?
    ensures Step(e, w, c).0.store.codes == w.store.codes
  {
    hide Drawn, Listed, Fresh, LoginCheck, Issue, Rotate, RevokeAllForUser, Logout, InvalidateAllForUser,
         RedeemedRow;
  }

  /** Outside enrolment a call consumes at most one recovery code of `u`, one whose hash the offered
      text matches, and leaves the rest alone. */
  lemma {:induction false} StepConsumes(e: Env, w: World, c: Call, u: Id)
    requires Admissible(e, w, c) && !Reenrols(e, w, c, u)
    ensures var codes := w.store.codes;
            && Consumes(codes, Step(e, w, c).0.store.codes, u, Only(Uses(e, w, c, u)))
            && (Uses(e, w, c, u).Some? ==>
                  var id := Uses(e, w, c, u).value;
                  && c.request.SecondStep? && id in codes
                  && e.factors.argon2(codes[id].codeHash, Offered(c)) == Match)
  {
    var s := w.store;
    NothingConsumed(s.codes, u);
    match c.request
    case SecondStep(_, _, _, _) =>
      SecondStepConsumes(e, w, c, u);
      hide Step, Consumes, Uses, Offered;
    case FactorEnable(v, code, ids, hashes) =>
      hide Consumes, EnableTwoFactor, Fresh;
      EnableConsumes(e, s, v, code, ids, hashes, c.at, u);
    case FactorDisable(v, code, order) =>
      hide Consumes, DisableTwoFactor, Disable;
      if u == v {
        DisableRefused(e, s, v, code, order, c.at);
      } else {
        DisableOther(e, s, v, code, order, c.at, u);
      }
    case _ =>
      hide Consumes;
      CodesKept(e, w, c);
      hide Step;
  }

  ghost predicate SameEnrolment(e: Env, ws: seq<World>, cs: seq<Call>, i: nat, j: nat, u: Id)
    requires Trace(e, ws, cs) && j <= |cs|
  {
    forall k :: i <= k < j ==> !Reenrols(e, ws[k], cs[k], u)
  }

  ghost function UseCount(e: Env, ws: seq<World>, cs: seq<Call>, i: nat, j: nat, u: Id): nat
    requires Trace(e, ws, cs) && i <= j <= |cs|
    decreases j - i
  {
    if i == j then 0
    else UseCount(e, ws, cs, i, j - 1, u) + |Only(Uses(e, ws[j - 1], cs[j - 1], u))|
  }

  /** The recovery codes of `u` consumed from call `i` up to call `j`. */
  ghost function UsedCodes(e: Env, ws: seq<World>, cs: seq<Call>, i: nat, j: nat, u: Id): set<Id>
    requires Trace(e, ws, cs) && i <= j <= |cs|
    decreases j - i
  {
    if i == j then {}
    else UsedCodes(e, ws, cs, i, j - 1, u) + Only(Uses(e, ws[j - 1], cs[j - 1], u))
  }

  lemma {:induction false} ConsumesChain(codes: Codes, codes': Codes, codes'': Codes, u: Id, a: set<Id>, b: set<Id>)
    requires Consumes(codes, codes', u, a) && Consumes(codes', codes'', u, b)
    ensures Consumes(codes, codes'', u, a + b) && a !! b
  {
    hide Unused, Owned;
    var gone := a + b;
    assert Unused(codes'', u) == Unused(codes, u) - gone;
  }

  /** Within one enrolment the unused codes are exactly those not consumed yet, no code is consumed
      twice, and the rows keep their hashes. */
  lemma {:induction false} CodesConserved(e: Env, ws: seq<World>, cs: seq<Call>, i: nat, j: nat, u: Id)
    requires Trace(e, ws, cs) && i <= j <= |cs| && SameEnrolment(e, ws, cs, i, j, u)
    ensures Consumes(ws[i].store.codes, ws[j].store.codes, u, UsedCodes(e, ws, cs, i, j, u))
    ensures UseCount(e, ws, cs, i, j, u) == |UsedCodes(e, ws, cs, i, j, u)|
    decreases j
  {
    hide Step, Uses, Admissible, Reenrols, Consumes;
    if i == j {
      NothingConsumed(ws[i].store.codes, u);
    } else {
      var k := j - 1;
      TraceStep(e, ws, cs, k);
      CodesConserved(e, ws, cs, i, k, u);
      StepConsumes(e, ws[k], cs[k], u);
      ConsumesChain(ws[i].store.codes, ws[k].store.codes, ws[j].store.codes, u,
                    UsedCodes(e, ws, cs, i, k, u), Only(Uses(e, ws[k], cs[k], u)));
    }
  }

  lemma {:induction false} ConsumedCount(codes: Codes, codes': Codes, u: Id, gone: set<Id>)
    requires Consumes(codes, codes', u, gone)
    ensures |gone| + |Unused(codes', u)| == |Unused(codes, u)|
  {
    hide Unused, Owned;
    assert Unused(codes, u) == Unused(codes', u) + gone;
  }

  lemma {:induction false} EnableReplaces(
      e: Env, s: Store, u: Id, code: string, ids: seq<Id>, hashes: seq<string>, now: int)
    requires Fresh(s.codes, ids, hashes) && EnableTwoFactor(e, s, u, code, ids, hashes, now).1.Done?
    ensures |Unused(EnableTwoFactor(e, s, u, code, ids, hashes, now).0.codes, u)| == 10
  {
    ReplaceEffect(s.codes, u, ids, hashes, u);
    hide Fresh, ReplaceCodes, Totp.Verified, Unused, Owned;
  }

  lemma {:induction false} EnabledCodes(e: Env, w: World, c: Call, u: Id)
    requires Admissible(e, w, c) && c.request.FactorEnable? && c.request.userId == u
    requires Step(e, w, c).1.Done?
    ensures |Unused(Step(e, w, c).0.store.codes, u)| == 10
  {
    hide Fresh, EnableTwoFactor, Unused;
    EnableReplaces(e, w.store, u, c.request.code, c.request.ids, c.request.hashes, c.at);
  }

  lemma {:induction false} SomeUnused(codes: Codes, u: Id, id: Id)
    requires id in Unused(codes, u)
    ensures |Unused(codes, u)| >= 1
  {
  }

  lemma {:induction false} DisableUses(e: Env, s: Store, u: Id, code: string, order: seq<Id>, now: int)
    requires Listed(s, u, order)
    ensures var v := Disable(e.factors, s.users, s.codes, u, code, order, now).3;
            v.ByRecovery? ==>
              v.id in Unused(s.codes, u) && v.id in s.codes
              && e.factors.argon2(s.codes[v.id].codeHash, Lower(Trim(code))) == Match
  {
    if FindById(s.users, u).Some? {
      VerifyEffect(e.factors, s.codes, u, s.users[u], code, order, now, u);
      OwnedRows(s.codes, u);
      hide VerifyCode, Unused, Owned, Lists, DeleteAllForUser, Lower, Trim;
    }
  }

  lemma {:induction false} SecondStepUses(e: Env, w: World, c: Call, u: Id)
    requires Admissible(e, w, c) && c.request.SecondStep? && Uses(e, w, c, u).Some?
    ensures Uses(e, w, c, u).value in Unused(w.store.codes, u)
  {
    VerifyEffect(e.factors, w.store.codes, u, w.store.users[u], c.request.code, c.request.order, c.at, u);
    hide VerifyCode, Unused, Owned, Lists, Drawn;
  }

  lemma {:induction false} OfferedIs(c: Call)
    requires c.request.SecondStep? || c.request.FactorDisable?
    ensures Offered(c) == Lower(Trim(c.request.code))
  {
  }

  /** A recovery code is consumed only by a second login step or by disabling, it was unused until then,
      and its hash matches the text offered. */
  lemma {:induction false} UsedCode(e: Env, w: World, c: Call, u: Id)
    requires Admissible(e, w, c) && Uses(e, w, c, u).Some?
    ensures var id, codes := Uses(e, w, c, u).value, w.store.codes;
            && (c.request.SecondStep? || (c.request.FactorDisable? && c.request.userId == u))
            && id in Unused(codes, u) && id in codes
            && e.factors.argon2(codes[id].codeHash, Offered(c)) == Match
  {
    var s := w.store;
    hide Drawn, Fresh, Unused, Disable, VerifyCode, Consumes, Offered;
    match c.request
    case SecondStep(_, _, _, _) =>
      SecondStepUses(e, w, c, u);
      SecondStepConsumes(e, w, c, u);
      hide Uses, Step;
    case FactorDisable(_, code, order) =>
      DisableUses(e, s, u, code, order, c.at);
      OfferedIs(c);
    case _ =>
  }

  /** One enrolment yields at most ten acceptances through recovery codes: the ones so far and the codes
      still unused always make ten, and any further one, the one that disables included, needs one more to
      be left. */
  lemma {:induction false} TenUses(e: Env, ws: seq<World>, cs: seq<Call>, i: nat, j: nat, u: Id)
    requires Trace(e, ws, cs) && i < j <= |cs|
    requires cs[i].request.FactorEnable? && cs[i].request.userId == u && AnswerAt(e, ws, cs, i).Done?
    requires SameEnrolment(e, ws, cs, i + 1, j, u)
    ensures UseCount(e, ws, cs, i + 1, j, u) + |Unused(ws[j].store.codes, u)| == 10
    ensures j < |cs| && Uses(e, ws[j], cs[j], u).Some? ==>
              UseCount(e, ws, cs, i + 1, j, u) + 1 <= 10
  {
    hide Step, Uses, Admissible, SameEnrolment, Consumes, UsedCodes, UseCount;
    TraceStep(e, ws, cs, i);
    EnabledCodes(e, ws[i], cs[i], u);
    CodesConserved(e, ws, cs, i + 1, j, u);
    ConsumedCount(ws[i + 1].store.codes, ws[j].store.codes, u, UsedCodes(e, ws, cs, i + 1, j, u));
    if j < |cs| && Uses(e, ws[j], cs[j], u).Some? {
      UsedCode(e, ws[j], cs[j], u);
      SomeUnused(ws[j].store.codes, u, Uses(e, ws[j], cs[j], u).value);
    }
  }

  /** argon2 tells the codes of `u` apart: no text matches two of their hashes. */
  ghost predicate TellsApart(argon2: Argon2, codes: Codes, u: Id) {
    forall a, b, text ::
      (a in Owned(codes, u) && b in Owned(codes, u)
       && argon2(codes[a].codeHash, text) == Match && argon2(codes[b].codeHash, text) == Match)
      ==> a == b
  }

  lemma {:induction false} SameText(
      argon2: Argon2, codes: Codes, k: Codes, m: Codes, u: Id, gone: set<Id>, gone': set<Id>,
      a: Id, b: Id, text: string)
    requires Consumes(codes, k, u, gone) && Consumes(codes, m, u, gone') && TellsApart(argon2, codes, u)
    requires a in Unused(k, u) && b in Unused(m, u)
    requires argon2(k[a].codeHash, text) == Match && argon2(m[b].codeHash, text) == Match
    ensures a == b
  {
    OwnedRows(k, u);
    OwnedRows(m, u);
    hide Unused, Owned;
  }

  lemma {:induction false} Taken(codes: Codes, codes': Codes, u: Id, gone: set<Id>)
    requires Consumes(codes, codes', u, gone)
    ensures forall id :: id in gone ==> id in Unused(codes, u) && id !in Unused(codes', u)
  {
  }

  /** Each code works at most once per enrolment, the call that ends the enrolment included: a code spent
      at a login does not disable the second factor either. If argon2 tells the codes of the enrolment
      apart, no text is accepted twice, however it is cased or padded. */
  lemma {:induction false} EachCodeOnce(e: Env, ws: seq<World>, cs: seq<Call>, i: nat, k: nat, m: nat, u: Id)
    requires Trace(e, ws, cs) && i <= k < m < |cs| && SameEnrolment(e, ws, cs, i, m, u)
    requires Uses(e, ws[k], cs[k], u).Some? && Uses(e, ws[m], cs[m], u).Some?
    ensures Uses(e, ws[k], cs[k], u) != Uses(e, ws[m], cs[m], u)
    ensures cs[k].request.SecondStep?
    ensures cs[m].request.SecondStep? || (cs[m].request.FactorDisable? && cs[m].request.userId == u)
    ensures TellsApart(e.factors.argon2, ws[i].store.codes, u) ==> Offered(cs[k]) != Offered(cs[m])
  {
    hide Step, Uses, Admissible, Reenrols, Offered, Consumes, UsedCodes, UseCount, TellsApart, Unused;
    var codes, ck, cm := ws[i].store.codes, ws[k].store.codes, ws[m].store.codes;
    TraceStep(e, ws, cs, k);
    CodesConserved(e, ws, cs, i, k, u);
    CodesConserved(e, ws, cs, i, m, u);
    CodesConserved(e, ws, cs, k + 1, m, u);
    StepConsumes(e, ws[k], cs[k], u);
    UsedCode(e, ws[k], cs[k], u);
    UsedCode(e, ws[m], cs[m], u);
    var a, b := Uses(e, ws[k], cs[k], u).value, Uses(e, ws[m], cs[m], u).value;
    ConsumesChain(ck, ws[k + 1].store.codes, cm, u, {a}, UsedCodes(e, ws, cs, k + 1, m, u));
    Taken(ck, cm, u, {a} + UsedCodes(e, ws, cs, k + 1, m, u));
    if TellsApart(e.factors.argon2, codes, u) && Offered(cs[k]) == Offered(cs[m]) {
      SameText(e.factors.argon2, codes, ck, cm, u, UsedCodes(e, ws, cs, i, k, u),
               UsedCodes(e, ws, cs, i, m, u), a, b, Offered(cs[k]));
    }
  }
}
