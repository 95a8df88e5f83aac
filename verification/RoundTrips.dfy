/** What the services hand out works later, and exactly how long: refresh tokens, reset tokens, new
    passwords and enrolled secrets. */
module RoundTrips {
  import opened Text
  import Base32
  import opened Totp
  import opened TokenTable
  import opened Sessions
  import opened Accounts
  import opened SecondFactor
  import opened Resets
  import opened Auth
  import opened World
  import opened SessionSafety
  import opened LockoutSafety
  import opened ResetSafety
  import opened FactorSafety
  import opened AccountSafety

  // ----- refresh tokens ------------------------------------------------------

  /** The table holds an unrevoked row of the answer's user for the refresh token it hands out. */
  ghost predicate Backed(e: Env, t: Table, a: Answer, now: int) {
    a.Session? ==>
      var p := Parse(a.refresh);
      && p.Some? && p.value.id in t
      && t[p.value.id].userId == a.userId
      && t[p.value.id].tokenHash == e.sessions.sha256(p.value.secret)
      && t[p.value.id].revokedAt.None?
      && t[p.value.id].expiresAt == now + e.sessions.ttl
  }

  lemma {:induction false} StartBacked(e: Env, s: Store, userId: Id, g: Grant, now: int)
    requires Drawn(s.tokens, g)
    ensures var (s', a) := StartSession(e, s, userId, g, now); Backed(e, s'.tokens, a, now)
  {
    ParseRaw(s.tokens, g);
    hide Parse, RawToken;
  }

  lemma {:induction false} LoginBacked(e: Env, s: Store, email: string, password: string, g: Grant, now: int)
    requires Drawn(s.tokens, g)
    ensures var (s', a) := Login(e, s, email, password, g, now); Backed(e, s'.tokens, a, now)
  {
    var (users', c) := LoginCheck(e, s, email, password, now);
    if c.Valid? {
      StartBacked(e, s.(users := users'), c.id, g, now);
    }
    hide LoginCheck, Drawn, Issue, Parse;
  }

  lemma {:induction false} RefusalBacked(e: Env, t: Table, reason: Reason, now: int)
    ensures Backed(e, t, Rejected(reason), now)
  {
  }

  lemma {:induction false} SecondStepBacked(
      e: Env, s: Store, payload: Option<Jwt>, code: string, order: seq<Id>, g: Grant, now: int)
    requires payload.Some? ==> Auth.Listed(s, payload.value.sub, order)
    requires Drawn(s.tokens, g)
    ensures var (s', a) := LoginSecondFactor(e, s, payload, code, order, g, now); Backed(e, s'.tokens, a, now)
  {
    hide VerifyCode, Issue, Drawn, Lists, Parse, Backed;
    match ChallengedUser(s, payload)
    case None => RefusalBacked(e, s.tokens, Unauthorized, now);
    case Some(user) =>
      var u := payload.value.sub;
      var codes' := VerifyCode(e.factors, s.codes, u, user, code, order, now).0;
      StartBacked(e, s.(codes := codes'), u, g, now);
      RefusalBacked(e, s.tokens, Unauthorized, now);
      RefusalBacked(e, s.tokens, ServerError, now);
  }

  lemma {:induction false} RefreshBacked(e: Env, s: Store, raw: string, g: Grant, now: int)
    requires Drawn(s.tokens, g)
    ensures var (s', a) := Refresh(e, s, raw, g, now); Backed(e, s'.tokens, a, now)
  {
    RotateSwaps(e.sessions, s.tokens, raw, g, now);
    ParseRaw(s.tokens, g);
    hide Rotate, Check, Parse, RawToken, RevokeAllForUser;
  }

  lemma {:induction false} RegisterBacked(e: Env, s: Store, email: string, hash: string, id: Id, g: Grant, now: int)
    requires Drawn(s.tokens, g)
    ensures var (s', a) := Register(e, s, email, hash, id, g, now); Backed(e, s'.tokens, a, now)
  {
    hide StartSession, Drawn, Backed;
    RefusalBacked(e, s.tokens, Conflict, now);
    RefusalBacked(e, s.tokens, ServerError, now);
    StartBacked(e, s.(users := s.users[id := User(email, hash, true, false, None, 0, None, false)]), id, g, now);
  }

  lemma {:induction false} NoSessionBacked(e: Env, w: World, c: Call)
    requires Admissible(e, w, c)
    requires !c.request.SignUp? && !c.request.SignIn? && !c.request.SecondStep? && !c.request.Renewal?
    ensures var (w', a) := Step(e, w, c); Backed(e, w'.store.tokens, a, c.at)
  {
    hide Drawn, Auth.Listed, Fresh, VerifyCode, RedeemedRow, FindByEmail, FindByHash, Parse;
  }

  /** Whoever is answered with a session holds a token the table backs. */
  lemma {:induction false} StepBacked(e: Env, w: World, c: Call)
    requires Admissible(e, w, c)
    ensures var (w', a) := Step(e, w, c); Backed(e, w'.store.tokens, a, c.at)
  {
    var s := w.store;
    hide Backed, Drawn, Auth.Listed, Fresh, StartSession, Login, LoginSecondFactor, Refresh, RevokeAllForUser, Logout;
    match c.request
    case SignUp(email, hash, id, g) => RegisterBacked(e, s, email, hash, id, g, c.at);
    case SignIn(email, password, g) => LoginBacked(e, s, email, password, g, c.at);
    case SecondStep(token, code, order, g) => SecondStepBacked(e, s, VerifyJwt(w, token, c.at), code, order, g, c.at);
    case Renewal(raw, g) => RefreshBacked(e, s, raw, g, c.at);
    case _ => NoSessionBacked(e, w, c);
  }

  lemma {:induction false} BackedRotates(e: Env, t: Table, t': Table, a: Answer, issued: int, g: Grant, now: int)
    requires a.Session? && Backed(e, t, a, issued) && Evolves(t, t') && Drawn(t', g)
    ensures var id, r := Parse(a.refresh).value.id, Rotate(e.sessions, t', a.refresh, g, now).1;
            && id in t'
            && (r.Rotated? <==> t'[id].revokedAt.None? && now <= issued + e.sessions.ttl)
            && (r.Rotated? ==> r.userId == a.userId && r.oldId == id)
  {
    RowStays(t, t', Parse(a.refresh).value.id);
    RotateSwaps(e.sessions, t', a.refresh, g, now);
    hide Rotate, Parse, Evolves, Drawn, Swapped;
  }

  /** A refresh token handed out in any answer of any run rotates later, for the user it was handed to,
      if and only if its row has not been revoked meanwhile and its lifetime is not over. */
  lemma {:induction false} TokenWorks(e: Env, ws: seq<World>, cs: seq<Call>, i: nat, j: nat)
    requires Trace(e, ws, cs) && i < j < |cs| && WellLinked(ws[0].store.tokens)
    requires AnswerAt(e, ws, cs, i).Session? && cs[j].request.Renewal?
    requires cs[j].request.raw == AnswerAt(e, ws, cs, i).refresh
    ensures var a, t := AnswerAt(e, ws, cs, i), ws[j].store.tokens;
            && Parse(a.refresh).Some? && Parse(a.refresh).value.id in t
            && (Rotates(e, ws[j], cs[j]) <==>
                  t[Parse(a.refresh).value.id].revokedAt.None? && cs[j].at <= cs[i].at + e.sessions.ttl)
            && (Rotates(e, ws[j], cs[j]) ==> RotationAt(e, ws[j], cs[j]).userId == a.userId)
  {
    hide Serve, Step, WellLinked, Evolves, Rotate, Parse;
    var a := AnswerAt(e, ws, cs, i);
    StepBacked(e, ws[i], cs[i]);
    TraceTokens(e, ws, cs, 0, i + 1);
    TraceTokens(e, ws, cs, i + 1, j);
    TraceStep(e, ws, cs, j);
    BackedRotates(e, ws[i + 1].store.tokens, ws[j].store.tokens, a, cs[i].at, cs[j].request.grant, cs[j].at);
  }

  // ----- reset tokens --------------------------------------------------------

  lemma {:induction false} AccountsStay(e: Env, ws: seq<World>, cs: seq<Call>, i: nat, j: nat, u: Id)
    requires Trace(e, ws, cs) && i <= j < |ws| && u in ws[i].store.users
    ensures u in ws[j].store.users
    decreases j
  {
    hide Step, Admissible;
    if i == j {
    } else {
      AccountsStay(e, ws, cs, i, j - 1, u);
      StepLock(e, ws[j - 1], cs[j - 1], u);
    }
  }

  lemma {:induction false} RequestStores(e: Env, w: World, c: Call, u: Id)
    requires Admissible(e, w, c) && c.request.ResetRequest?
    requires FindByEmail(w.store.users, c.request.email) == Some(u) && w.store.users[u].isActive
    ensures var resets := Step(e, w, c).0.store.resets;
            c.request.id in resets
            && resets[c.request.id] == ResetToken(u, e.sessions.sha256(c.request.raw), c.at + e.resetTtl, None)
  {
    hide FindByEmail, FindByHash;
  }

  lemma {:induction false} RedeemExact(e: Env, s: Store, raw: string, newHash: string, now: int, id: Id)
    requires UniqueHashes(s.resets) && HasHash(s.resets, id, e.sessions.sha256(raw))
    requires s.resets[id].userId in s.users
    ensures var (s', a), u := Reset(e, s, raw, newHash, now), s.resets[id].userId;
            && (a.Done? <==> s.resets[id].usedAt.None? && now <= s.resets[id].expiresAt)
            && (a.Done? ==> s'.users == SetPassword(s.users, u, newHash))
  {
    hide RevokeAllForUser, InvalidateAllForUser, SetPassword, Resets.MarkUsed;
    assert FindByHash(s.resets, e.sessions.sha256(raw)) == Some(id);
  }

  lemma {:induction false} EmailOwner(users: Users, email: string, u: Id)
    requires FindByEmail(users, email) == Some(u)
    ensures u in users
  {
  }

  lemma {:induction false} RedeemServed(e: Env, w: World, c: Call)
    requires Admissible(e, w, c) && c.request.ResetRedeem?
    ensures Step(e, w, c).1 == Reset(e, w.store, c.request.raw, c.request.newHash, c.at).1
    ensures Step(e, w, c).0.store == Reset(e, w.store, c.request.raw, c.request.newHash, c.at).0
  {
    hide Reset;
  }

  /** A reset token requested for an active account sets that account's password later if and only if
      its row has not been used up meanwhile and its lifetime is not over. */
  lemma {:induction false} ResetWorks(e: Env, ws: seq<World>, cs: seq<Call>, i: nat, j: nat, u: Id)
    requires Trace(e, ws, cs) && i < j < |cs| && UniqueHashes(ws[0].store.resets)
    requires cs[i].request.ResetRequest? && cs[j].request.ResetRedeem?
    requires FindByEmail(ws[i].store.users, cs[i].request.email) == Some(u) && ws[i].store.users[u].isActive
    requires cs[j].request.raw == cs[i].request.raw
    ensures cs[i].request.id in ws[j].store.resets
    ensures AnswerAt(e, ws, cs, j).Done? <==>
              ws[j].store.resets[cs[i].request.id].usedAt.None? && cs[j].at <= cs[i].at + e.resetTtl
    ensures AnswerAt(e, ws, cs, j).Done? ==>
              u in ws[j].store.users
              && ws[j + 1].store.users == SetPassword(ws[j].store.users, u, cs[j].request.newHash)
  {
    hide Step, UniqueHashes, Admissible, Reset, FindByEmail, SetPassword, HasEmail;
    TraceStep(e, ws, cs, i);
    RequestStores(e, ws[i], cs[i], u);
    assert u in ws[i].store.users by { EmailOwner(ws[i].store.users, cs[i].request.email, u); }
    AccountsStay(e, ws, cs, i, j, u);
    TraceResets(e, ws, cs, 0, i + 1);
    TraceResets(e, ws, cs, i + 1, j);
    TraceResets(e, ws, cs, 0, j);
    RedeemExact(e, ws[j].store, cs[j].request.raw, cs[j].request.newHash, cs[j].at, cs[i].request.id);
    TraceStep(e, ws, cs, j);
    RedeemServed(e, ws[j], cs[j]);
  }

  // ----- passwords -----------------------------------------------------------

  /** The right password opens an account exactly when it is active and its lock, if any, is over. */
  lemma {:induction false} LoginExact(
      argon2: Argon2, l: Lockout, users: Users, email: string, password: string, now: int, id: Id)
    requires UniqueEmails(users) && HasEmail(users, id, email)
    ensures var c := ValidateCredentials(argon2, l, users, email, password, now).1;
            && (c.Valid? <==>
                  && users[id].isActive
                  && (users[id].lockedUntil.Some? ==> users[id].lockedUntil.value <= now)
                  && argon2(users[id].passwordHash, password) == Match)
            && (c.Valid? ==> c.id == id && c.entity == users[id])
  {
    assert FindByEmail(users, email) == Some(id);
  }

  /** What a login of the account `x` should be answered, by its state alone. */
  function LoginOutcome(e: Env, u: Id, x: User, password: string, g: Grant, now: int): Answer {
    if x.deleted || !x.isActive || (x.lockedUntil.Some? && x.lockedUntil.value > now)
       || e.factors.argon2(x.passwordHash, password) != Match
    then Rejected(Unauthorized)
    else if x.twoFactorEnabled then Challenge(ChallengeToken(e, u, now))
    else Session(u, AccessToken(e, u, now), RawToken(g))
  }

  lemma {:induction false} LoginAnswered(
      e: Env, s: Store, email: string, password: string, g: Grant, now: int, u: Id)
    requires UniqueEmails(s.users) && u in s.users && s.users[u].email == email
    ensures Login(e, s, email, password, g, now).1 == LoginOutcome(e, u, s.users[u], password, g, now)
  {
    hide RawToken, Issue;
    if s.users[u].deleted {
      assert forall id :: !HasEmail(s.users, id, email);
    } else {
      LoginExact(e.factors.argon2, e.lockout, s.users, email, password, now, u);
      hide ValidateCredentials;
    }
  }

  lemma {:induction false} LoginServed(e: Env, w: World, c: Call)
    requires Admissible(e, w, c) && c.request.SignIn?
    ensures Step(e, w, c).1 == Login(e, w.store, c.request.email, c.request.password, c.request.grant, c.at).1
  {
    hide Login;
  }

  /** The account `y` now, with the password and the standing it had as `x`. */
  function Since(x: User, y: User, hash: string): User {
    y.(passwordHash := hash, isActive := x.isActive, deleted := x.deleted)
  }

  /** The password set last, and no other, opens an account at any later call until a new one is set or
      the administrator edits the account: a login with the account's email is answered as its active
      flag, a running lock, the second factor and that password say. */
  lemma {:induction false} PasswordWorks(e: Env, ws: seq<World>, cs: seq<Call>, i: nat, j: nat, u: Id)
    requires Trace(e, ws, cs) && i < j < |cs| && UniqueEmails(ws[0].store.users)
    requires NewHash(e, ws[i], cs[i], u).Some? && Untouched(e, ws, cs, i + 1, j, u)
    requires cs[j].request.SignIn?
    requires u in ws[i + 1].store.users && cs[j].request.email == ws[i + 1].store.users[u].email
    ensures u in ws[j].store.users
    ensures AnswerAt(e, ws, cs, j)
         == LoginOutcome(e, u, Since(ws[i + 1].store.users[u], ws[j].store.users[u], NewHash(e, ws[i], cs[i], u).value),
                         cs[j].request.password, cs[j].request.grant, cs[j].at)
  {
    hide Step, NewHash, Admissible, UniqueEmails, Login, Untouched, LoginOutcome;
    TraceStep(e, ws, cs, i);
    TraceStep(e, ws, cs, j);
    HashStored(e, ws[i], cs[i], u);
    TraceAccount(e, ws, cs, i + 1, j, u);
    TraceUnique(e, ws, cs, j);
    var q, y := cs[j].request, ws[j].store.users[u];
    assert y == Since(ws[i + 1].store.users[u], y, NewHash(e, ws[i], cs[i], u).value);
    LoginAnswered(e, ws[j].store, q.email, q.password, q.grant, cs[j].at, u);
    LoginServed(e, ws[j], cs[j]);
  }

  lemma {:induction false} SignUpStores(e: Env, w: World, c: Call)
    requires Admissible(e, w, c) && c.request.SignUp? && Step(e, w, c).1.Session?
    ensures var users', q := Step(e, w, c).0.store.users, c.request;
            && NewHash(e, w, c, q.id) == Some(q.passwordHash)
            && q.id in users' && users'[q.id] == User(q.email, q.passwordHash, true, false, None, 0, None, false)
  {
    hide Drawn, Issue;
  }

  /** In particular whoever registers can log in with the password chosen, at any later call before it is
      changed or the account edited, unless too many failures have it locked. */
  lemma {:induction false} RegistrationWorks(e: Env, ws: seq<World>, cs: seq<Call>, i: nat, j: nat)
    requires Trace(e, ws, cs) && i < j < |cs| && UniqueEmails(ws[0].store.users)
    requires cs[i].request.SignUp? && AnswerAt(e, ws, cs, i).Session?
    requires cs[j].request.SignIn? && cs[j].request.email == cs[i].request.email
    requires e.factors.argon2(cs[i].request.passwordHash, cs[j].request.password) == Match
    requires Untouched(e, ws, cs, i + 1, j, cs[i].request.id)
    ensures var u := cs[i].request.id;
            && u in ws[j].store.users
            && (AnswerAt(e, ws, cs, j).Rejected? <==>
                  ws[j].store.users[u].lockedUntil.Some? && ws[j].store.users[u].lockedUntil.value > cs[j].at)
            && (AnswerAt(e, ws, cs, j).Session? ==> AnswerAt(e, ws, cs, j).userId == u)
  {
    hide Step, Admissible, UniqueEmails, Untouched;
    TraceStep(e, ws, cs, i);
    SignUpStores(e, ws[i], cs[i]);
    PasswordWorks(e, ws, cs, i, j, cs[i].request.id);
  }

  /** Right after a reset the new password logs in at any instant, lock or no lock. */
  lemma {:induction false} ResetThenLogin(
      e: Env, s: Store, raw: string, newHash: string, at: int,
      email: string, password: string, g: Grant, now: int, u: Id)
    requires UniqueEmails(s.users) && Reset(e, s, raw, newHash, at).1.Done?
    requires HasEmail(s.users, u, email) && s.users[u].isActive
    requires s.resets[RedeemedRow(e, s, raw, at).value].userId == u
    requires e.factors.argon2(newHash, password) == Match
    ensures var s' := Reset(e, s, raw, newHash, at).0;
            var a := Login(e, s', email, password, g, now).1;
            if s.users[u].twoFactorEnabled then a == Challenge(ChallengeToken(e, u, now))
            else a == Session(u, AccessToken(e, u, now), RawToken(g))
  {
    hide RevokeAllForUser, InvalidateAllForUser, RedeemedRow, RawToken, Issue;
    var s' := Reset(e, s, raw, newHash, at).0;
    assert s'.users == SetPassword(s.users, u, newHash);
    LoginExact(e.factors.argon2, e.lockout, s'.users, email, password, now, u);
    hide ValidateCredentials, Reset;
  }

  /** Whoever registers can log in with the password chosen. */
  lemma {:induction false} RegisterThenLogin(
      e: Env, s: Store, email: string, hash: string, id: Id, g: Grant, at: int,
      password: string, g': Grant, now: int)
    requires UniqueEmails(s.users) && id !in s.users && Register(e, s, email, hash, id, g, at).1.Session?
    requires e.factors.argon2(hash, password) == Match
    ensures var s' := Register(e, s, email, hash, id, g, at).0;
            Login(e, s', email, password, g', now).1 == Session(id, AccessToken(e, id, now), RawToken(g'))
  {
    hide RawToken, Issue, FindByEmail;
    var s' := Register(e, s, email, hash, id, g, at).0;
    assert UniqueEmails(s'.users) && HasEmail(s'.users, id, email);
    LoginExact(e.factors.argon2, e.lockout, s'.users, email, password, now, id);
    hide ValidateCredentials, Register;
  }

  // ----- the second factor ---------------------------------------------------

  /** The instant lies at least one time step after the epoch, and not beyond 64 bits of them. */
  predicate Timely(now: nat) {
    30_000 <= now < 30_000 * (0x1_0000_0000_0000_0000 - 1)
  }

  /** `code` is what an authenticator holding the raw key shows at `t`: the code of the time step that `t`
      lies in. */
  ghost predicate Shown(f: Factors, key: seq<Base32.Byte>, t: nat, code: string) {
    exists k :: InStep(t, k) && Hotp(f.hmac, key, k) == Ok(code)
  }

  predicate Near(t: nat, now: nat) {
    t - now <= 30_000 && now - t <= 30_000
  }

  lemma {:induction false} DigitsTrimmed(code: string)
    requires SixDigits(code)
    ensures Trim(code) == code
  {
    assert code[0] in code && code[5] in code;
    assert [] + code + [] == code;
    TrimPadded([], code, []);
  }

  lemma {:induction false} ShownVerifies(f: Factors, key: seq<Base32.Byte>, t: nat, now: nat, code: string)
    requires Timely(now) && Near(t, now) && Shown(f, key, t, code)
    ensures Verified(f.hmac, Base32.Encoded(key), code, WINDOW, now) == Ok(true)
    ensures SixDigits(code) && Trim(code) == code
  {
    hide Verified, Hotp, SixDigits, Trim;
    var k :| InStep(t, k) && Hotp(f.hmac, key, k) == Ok(code);
    var c := now / 30_000;
    assert InStep(now, c);
    StepDrift(t, k, now, c, 1);
    DriftEnrolled(f.hmac, key, t, k, now, c, 1);
    HotpDigits(f.hmac, key, k);
    DigitsTrimmed(code);
  }

  lemma {:induction false} EncodedNotEmpty(key: seq<Base32.Byte>)
    requires |key| == 20
    ensures Base32.Encoded(key) != ""
  {
    Base32.EncodedSlices(key);
  }

  lemma {:induction false} EnableShown(
      e: Env, s: Store, u: Id, key: seq<Base32.Byte>, t: nat, code: string,
      ids: seq<Id>, hashes: seq<string>, now: nat)
    requires |key| == 20 && FindById(s.users, u).Some? && Fresh(s.codes, ids, hashes)
    requires s.users[u].twoFactorSecret == Some(Base32.Encoded(key))
    requires Timely(now) && Near(t, now) && Shown(e.factors, key, t, code)
    ensures var (s', a) := EnableTwoFactor(e, s, u, code, ids, hashes, now);
            a.Done? && s'.users == SetTwoFactorEnabled(s.users, u, true)
  {
    hide Base32.Encoded, Verified, Fresh, ReplaceCodes, Shown, Timely, Near, Trim, SixDigits, SetTwoFactorEnabled;
    ShownVerifies(e.factors, key, t, now, code);
    EncodedNotEmpty(key);
  }

  /** Enrolment completes: after setup, the code an authenticator shows within 30 seconds enables the
      second factor. */
  lemma {:induction false} SetupThenEnable(
      e: Env, s: Store, u: Id, key: seq<Base32.Byte>, t: nat, code: string,
      ids: seq<Id>, hashes: seq<string>, now: nat)
    requires |key| == 20 && FindById(s.users, u).Some? && Fresh(s.codes, ids, hashes)
    requires Timely(now) && Near(t, now) && Shown(e.factors, key, t, code)
    ensures var s1 := Setup(s, u, key).0;
            var (s2, a) := EnableTwoFactor(e, s1, u, code, ids, hashes, now);
            && a.Done? && u in s2.users
            && s2.users[u] == s.users[u].(twoFactorSecret := Some(Base32.Encoded(key)), twoFactorEnabled := true)
  {
    hide EnableTwoFactor, Base32.Encoded, Fresh, Shown, Timely, Near;
    EnableShown(e, Setup(s, u, key).0, u, key, t, code, ids, hashes, now);
  }

  /** An enrolled account logs in with what its authenticator shows: an unexpired challenge and the code
      of any instant within 30 seconds give a session, and no recovery code is spent. */
  lemma {:induction false} EnrolledLogin(
      e: Env, s: Store, u: Id, key: seq<Base32.Byte>, t: nat, code: string,
      order: seq<Id>, g: Grant, now: nat, exp: int)
    requires |key| == 20 && LiveUser(s.users, u) && s.users[u].twoFactorEnabled
    requires s.users[u].twoFactorSecret == Some(Base32.Encoded(key))
    requires Auth.Listed(s, u, order)
    requires Timely(now) && Near(t, now) && Shown(e.factors, key, t, code)
    ensures var (s', a) := LoginSecondFactor(e, s, Some(Jwt(u, TwoFactorType, exp)), code, order, g, now);
            a == Session(u, AccessToken(e, u, now), RawToken(g)) && s'.codes == s.codes
  {
    hide Base32.Encoded, Verified, Lists, Shown, Timely, Near, Trim, SixDigits, Issue, RawToken, Consume;
    ShownVerifies(e.factors, key, t, now, code);
    EncodedNotEmpty(key);
  }

  // ----- the second factor along a trace -------------------------------------

  /** The call replaces or drops the secret of `u`. */
  ghost predicate Rekeys(e: Env, w: World, c: Call, u: Id)
    requires Admissible(e, w, c)
  {
    (c.request.FactorSetup? && c.request.userId == u)
    || (c.request.FactorDisable? && c.request.userId == u && Step(e, w, c).1.Done?)
  }

  /** The secret stays and the second factor, if enabled, stays enabled. */
  ghost predicate SecretKept(users: Users, users': Users, u: Id) {
    u in users ==>
      u in users' && users'[u].twoFactorSecret == users[u].twoFactorSecret
      && (users[u].twoFactorEnabled ==> users'[u].twoFactorEnabled)
  }

  lemma {:induction false} CreateKeepsSecret(
      s: Store, email: string, hash: string, active: Option<bool>, id: Id, u: Id)
    requires id !in s.users
    ensures SecretKept(s.users, CreateUser(s, email, hash, active, id).0.users, u)
  {
  }

  lemma {:induction false} OtherKeepsSecret(users: Users, users': Users, v: Id, u: Id)
    requires FactorChange(users, users', v) && u != v
    ensures SecretKept(users, users', u)
  {
  }

  lemma {:induction false} EnableKeepsSecret(users: Users, u: Id)
    requires u in users
    ensures SecretKept(users, SetTwoFactorEnabled(users, u, true), u)
  {
  }

  lemma {:induction false} SameKeepsSecret(s: Store, s': Store, u: Id)
    requires SameFactor(s, s', u) || s'.users == s.users
    ensures SecretKept(s.users, s'.users, u)
  {
  }

  /** Only setting up and disabling touch the secret of an account. */
  lemma {:induction false} StepSecret(e: Env, w: World, c: Call, u: Id)
    requires Admissible(e, w, c) && !Rekeys(e, w, c, u)
    ensures SecretKept(w.store.users, Step(e, w, c).0.store.users, u)
  {
    var s := w.store;
    hide SecretKept, FactorChange, SameFactor, Drawn, Fresh, Lists, Register, CreateUser, LoginSecondFactor, Setup,
         EnableTwoFactor, DisableTwoFactor, SetTwoFactorEnabled;
    match c.request
    case SignUp(email, hash, id, g) =>
      CreateKeepsSecret(s, email, hash, None, id, u);
      RegisterUsers(e, s, email, hash, id, g, c.at);
    case UserCreation(email, hash, active, id) => CreateKeepsSecret(s, email, hash, active, id, u);
    case SecondStep(token, code, order, g) =>
      SecondStepUsers(e, s, VerifyJwt(w, token, c.at), code, order, g, c.at);
      SameKeepsSecret(s, s, u);
    case FactorSetup(v, random) =>
      SetupChange(s, v, random);
      OtherKeepsSecret(s.users, Setup(s, v, random).0.users, v, u);
    case FactorEnable(v, code, ids, hashes) =>
      EnableChange(e, s, v, code, ids, hashes, c.at);
      SameKeepsSecret(s, s, u);
      if v == u {
        if u in s.users {
          EnableKeepsSecret(s.users, u);
        }
      } else {
        OtherKeepsSecret(s.users, EnableTwoFactor(e, s, v, code, ids, hashes, c.at).0.users, v, u);
      }
    case FactorDisable(v, code, order) =>
      DisableChange(e, s, v, code, order, c.at);
      SameKeepsSecret(s, s, u);
      if v != u {
        OtherKeepsSecret(s.users, DisableTwoFactor(e, s, v, code, order, c.at).0.users, v, u);
      }
    case _ =>
      OtherFactor(e, w, c, u);
      SameKeepsSecret(s, Step(e, w, c).0.store, u);
  }

  /** No call replaces or drops the secret of `u` from call `i` up to call `j`. */
  ghost predicate NoRekeying(e: Env, ws: seq<World>, cs: seq<Call>, i: nat, j: nat, u: Id)
    requires Trace(e, ws, cs) && j <= |cs|
  {
    forall k :: i <= k < j ==> !Rekeys(e, ws[k], cs[k], u)
  }

  lemma {:induction false} TraceSecret(e: Env, ws: seq<World>, cs: seq<Call>, i: nat, j: nat, u: Id)
    requires Trace(e, ws, cs) && i <= j <= |cs| && NoRekeying(e, ws, cs, i, j, u)
    requires u in ws[i].store.users
    ensures u in ws[j].store.users && SecretKept(ws[i].store.users, ws[j].store.users, u)
    decreases j
  {
    hide Step, Rekeys, Admissible;
    if i == j {
    } else {
      TraceStep(e, ws, cs, j - 1);
      TraceSecret(e, ws, cs, i, j - 1, u);
      StepSecret(e, ws[j - 1], cs[j - 1], u);
    }
  }

  lemma {:induction false} SetupStores(e: Env, w: World, c: Call, u: Id, key: seq<Base32.Byte>)
    requires Admissible(e, w, c) && c.request == FactorSetup(u, key) && Step(e, w, c).1.Enrolling?
    ensures var users' := Step(e, w, c).0.store.users;
            u in users' && users'[u].twoFactorSecret == Some(Base32.Encoded(key)) && |key| == 20
  {
    hide Base32.Encoded;
  }

  lemma {:induction false} EnableServed(e: Env, w: World, c: Call)
    requires Admissible(e, w, c) && c.request.FactorEnable?
    ensures var q := c.request;
            && Fresh(w.store.codes, q.ids, q.hashes)
            && (Step(e, w, c).0.store, Step(e, w, c).1)
               == EnableTwoFactor(e, w.store, q.userId, q.code, q.ids, q.hashes, c.at)
  {
    hide EnableTwoFactor, Fresh;
  }

  lemma {:induction false} EnableDone(e: Env, w: World, c: Call, u: Id)
    requires Admissible(e, w, c) && c.request.FactorEnable? && c.request.userId == u && Step(e, w, c).1.Done?
    ensures var users' := Step(e, w, c).0.store.users; u in users' && users'[u].twoFactorEnabled
  {
    var q := c.request;
    hide Step, EnableTwoFactor, Fresh, FactorChange, Admissible;
    EnableServed(e, w, c);
    EnableChange(e, w.store, u, q.code, q.ids, q.hashes, c.at);
  }

  /** Over every trace: after a setup, what an authenticator with the raw key shows within 30 seconds
      enables the second factor at any later call, until the next setup or disabling. */
  lemma {:induction false} EnrolmentWorks(
      e: Env, ws: seq<World>, cs: seq<Call>, i: nat, j: nat, u: Id, key: seq<Base32.Byte>, t: nat, now: nat)
    requires Trace(e, ws, cs) && i < j < |cs| && now == cs[j].at
    requires cs[i].request == FactorSetup(u, key) && AnswerAt(e, ws, cs, i).Enrolling?
    requires NoRekeying(e, ws, cs, i + 1, j, u)
    requires cs[j].request.FactorEnable? && cs[j].request.userId == u && FindById(ws[j].store.users, u).Some?
    requires Timely(now) && Near(t, now) && Shown(e.factors, key, t, cs[j].request.code)
    ensures AnswerAt(e, ws, cs, j).Done?
  {
    hide Step, Admissible, EnableTwoFactor, Fresh, Base32.Encoded, Shown, Timely, Near;
    var q := cs[j].request;
    TraceStep(e, ws, cs, i);
    TraceStep(e, ws, cs, j);
    SetupStores(e, ws[i], cs[i], u, key);
    TraceSecret(e, ws, cs, i + 1, j, u);
    EnableServed(e, ws[j], cs[j]);
    EnableShown(e, ws[j].store, u, key, t, q.code, q.ids, q.hashes, now);
  }

  lemma {:induction false} SecondStepServed(e: Env, w: World, c: Call, u: Id)
    requires Admissible(e, w, c) && c.request.SecondStep?
    requires c.request.token in w.jwts && c.request.token.typ == TwoFactorType && c.request.token.sub == u
    requires c.at < c.request.token.exp
    ensures var q := c.request;
            && Auth.Listed(w.store, u, q.order)
            && (Step(e, w, c).0.store, Step(e, w, c).1)
               == LoginSecondFactor(
                    e, w.store, Some(Jwt(u, TwoFactorType, q.token.exp)), q.code, q.order, q.grant, c.at)
  {
    hide LoginSecondFactor, Lists, Drawn;
  }

  /** Over every trace: once enrolled, an account that is not deactivated finishes its login with any
      unexpired challenge, whenever it was signed, and what its authenticator shows within 30 seconds,
      and spends no recovery code, until the next setup or disabling. */
  lemma {:induction false} EnrolledWorks(
      e: Env, ws: seq<World>, cs: seq<Call>, i: nat, m: nat, j: nat, u: Id, key: seq<Base32.Byte>, t: nat, now: nat)
    requires Trace(e, ws, cs) && i < m < j < |cs| && now == cs[j].at
    requires cs[i].request == FactorSetup(u, key) && AnswerAt(e, ws, cs, i).Enrolling?
    requires cs[m].request.FactorEnable? && cs[m].request.userId == u && AnswerAt(e, ws, cs, m).Done?
    requires NoRekeying(e, ws, cs, i + 1, j, u) && LiveUser(ws[j].store.users, u)
    requires cs[j].request.SecondStep? && cs[j].request.token in ws[j].jwts && cs[j].at < cs[j].request.token.exp
    requires cs[j].request.token.typ == TwoFactorType && cs[j].request.token.sub == u
    requires Timely(now) && Near(t, now) && Shown(e.factors, key, t, cs[j].request.code)
    ensures AnswerAt(e, ws, cs, j) == Session(u, AccessToken(e, u, now), RawToken(cs[j].request.grant))
    ensures ws[j + 1].store.codes == ws[j].store.codes
  {
    hide Step, Admissible, LoginSecondFactor, Lists, Base32.Encoded, Shown, Timely, Near, RawToken, Rekeys;
    var q := cs[j].request;
    TraceStep(e, ws, cs, i);
    TraceStep(e, ws, cs, m);
    TraceStep(e, ws, cs, j);
    SetupStores(e, ws[i], cs[i], u, key);
    TraceSecret(e, ws, cs, i + 1, j, u);
    EnableDone(e, ws[m], cs[m], u);
    TraceSecret(e, ws, cs, m + 1, j, u);
    SecondStepServed(e, ws[j], cs[j], u);
    EnrolledLogin(e, ws[j].store, u, key, t, q.code, q.order, q.grant, now, q.token.exp);
  }
}
