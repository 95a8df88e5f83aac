/** When each service call succeeds, how it is answered otherwise, and what it stores: the decision of
    every call stated outright on the tables, the tokens signed and the clock. */
module Decisions {
  import opened Text
  import Base32
  import Totp
  import opened TokenTable
  import opened Sessions
  import opened Accounts
  import opened SecondFactor
  import opened Resets
  import opened Auth
  import opened World

  /** The account is there and not deleted. */
  predicate Present(users: Users, u: Id) {
    u in users && !users[u].deleted
  }

  predicate Usable(users: Users, u: Id) {
    Present(users, u) && users[u].isActive
  }

  /** The answer that starts or continues a session for `u`: an access token for it with the configured
      lifetime, and the drawn refresh token. */
  function SessionFor(e: Env, u: Id, g: Grant, now: int): Answer {
    Session(u, Jwt(u, Absent, now + e.accessTtl), g.id + "." + g.secret)
  }

  // ----- access tokens -------------------------------------------------------

  /** A token speaks for its subject exactly when it is not a challenge and the account is usable. */
  lemma {:induction false} AuthenticateExact(users: Users, token: Jwt)
    ensures Authenticate(users, token)
         == if token.typ != TwoFactorType && Usable(users, token.sub) then Some(token.sub) else None
  {
  }

  /** Exactly the access token or challenge of an answer comes into circulation with it. */
  lemma {:induction false} SignedExact(e: Env, w: World, c: Call, token: Jwt)
    requires Admissible(e, w, c)
    ensures var (w', a) := Step(e, w, c);
            token in w'.jwts <==>
              token in w.jwts || (a.Session? && token == a.access) || (a.Challenge? && token == a.token)
  {
    hide Serve, Admissible;
  }

  // ----- registration and administration -------------------------------------

  /** An account is created exactly when no row, deleted or not, has the email. */
  lemma {:induction false} CreateExact(s: Store, email: string, hash: string, active: Option<bool>, id: Id)
    ensures var (s', a) := CreateUser(s, email, hash, active, id);
            var taken := exists u :: u in s.users && s.users[u].email == email;
            var present := exists u :: HasEmail(s.users, u, email);
            && a == (if present then Rejected(Conflict) else if taken then Rejected(ServerError) else Done)
            && s' == if taken then s
                     else s.(users := s.users[id := User(
                               email, hash, active != Some(false), false, None, 0, None, false)])
  {
    assert (exists u :: HasEmail(s.users, u, email)) <==> FindByEmail(s.users, email).Some?;
    assert (exists u :: HasEmail(s.users, u, email)) ==> exists u :: u in s.users && s.users[u].email == email;
  }

  lemma {:induction false} CreationExact(e: Env, w: World, c: Call)
    requires Admissible(e, w, c) && c.request.UserCreation?
    ensures var s, q, (w', a) := w.store, c.request, Step(e, w, c);
            var taken := exists u :: u in s.users && s.users[u].email == q.email;
            && (a == Done <==> !taken)
            && (a == Rejected(Conflict) <==> exists u :: HasEmail(s.users, u, q.email))
            && w'.store == if taken then s
                           else s.(users := s.users[q.id := User(q.email, q.passwordHash, q.active != Some(false),
                                                                 false, None, 0, None, false)])
  {
    var q := c.request;
    CreateExact(w.store, q.email, q.passwordHash, q.active, q.id);
    hide CreateUser;
  }

  lemma {:induction false} RegistrationExact(e: Env, w: World, c: Call)
    requires Admissible(e, w, c) && c.request.SignUp?
    ensures var s, q, (w', a) := w.store, c.request, Step(e, w, c);
            var taken := exists u :: u in s.users && s.users[u].email == q.email;
            && (!taken ==> a == SessionFor(e, q.id, q.grant, c.at))
            && (taken ==> a == Rejected(ServerError) || a == Rejected(Conflict))
            && (a == Rejected(Conflict) <==> exists u :: HasEmail(s.users, u, q.email))
            && w'.store == if taken then s
                           else Store(s.users[q.id := User(q.email, q.passwordHash, true, false, None, 0, None, false)],
                                      Issue(e.sessions, s.tokens, q.id, q.grant, c.at), s.codes, s.resets)
  {
    var q := c.request;
    CreateExact(w.store, q.email, q.passwordHash, None, q.id);
    hide CreateUser, Issue, Drawn;
  }

  /** Editing needs the account; a new email must not be any other account's, present or deleted. */
  lemma {:induction false} UpdateExact(e: Env, w: World, c: Call)
    requires Admissible(e, w, c) && c.request.UserUpdate? && UniqueEmails(w.store.users)
    ensures var s, q, (w', a) := w.store, c.request, Step(e, w, c);
            var u := q.userId;
            var email := if q.newEmail.Some? then q.newEmail.value else if u in s.users then s.users[u].email else "";
            var taken := exists v :: v in s.users && v != u && s.users[v].email == email;
            && (a == Rejected(NotFound) <==> !Present(s.users, u))
            && (a == Done <==> Present(s.users, u) && !taken)
            && w'.store == if !Present(s.users, u) || taken then s
                           else s.(users := s.users[u := s.users[u].(
                                     email := email,
                                     isActive := if q.newActive.Some? then q.newActive.value else s.users[u].isActive)])
  {
  }

  /** Removing keeps the row, deleted and inactive. */
  lemma {:induction false} RemovalExact(e: Env, w: World, c: Call)
    requires Admissible(e, w, c) && c.request.UserRemoval?
    ensures var s, u, (w', a) := w.store, c.request.userId, Step(e, w, c);
            if Present(s.users, u) then
              a == Done && w'.store == s.(users := s.users[u := s.users[u].(isActive := false, deleted := true)])
            else a == Rejected(NotFound) && w'.store == s
  {
  }

  // ----- login ---------------------------------------------------------------

  lemma {:induction false} LoginDecided(
      e: Env, s: Store, email: string, password: string, g: Grant, now: int, u: Id)
    requires UniqueEmails(s.users) && HasEmail(s.users, u, email)
    ensures var (s', a) := Login(e, s, email, password, g, now);
            var x := s.users[u];
            if !Open(s.users, u, now) then a == Rejected(Unauthorized) && s' == s
            else if e.factors.argon2(x.passwordHash, password) != Match then
              a == Rejected(Unauthorized) && s'.tokens == s.tokens
            else if x.twoFactorEnabled then
              a == Challenge(Jwt(u, TwoFactorType, now + e.challengeTtl)) && s'.tokens == s.tokens
            else a == SessionFor(e, u, g, now) && s'.tokens == Issue(e.sessions, s.tokens, u, g, now)
  {
    CredentialsExact(e.factors.argon2, e.lockout, s.users, email, password, now, u);
    var (users', c) := LoginCheck(e, s, email, password, now);
    assert s.(users := s.users) == s;
    if !s.users[u].isActive {
      assert forall v :: v in s.users && s.users[v].email == email ==> v == u;
    }
    hide ValidateCredentials, Issue, UniqueEmails;
  }

  lemma {:induction false} LoginUsers(
      e: Env, s: Store, email: string, password: string, g: Grant, now: int)
    ensures Login(e, s, email, password, g, now).0.users == LoginCheck(e, s, email, password, now).0
  {
    hide Issue, LoginCheck;
  }

  lemma {:induction false} LoginFrame(e: Env, s: Store, email: string, password: string, g: Grant, now: int)
    ensures var s' := Login(e, s, email, password, g, now).0; s'.codes == s.codes && s'.resets == s.resets
  {
    hide Issue, LoginCheck;
  }

  /** How a login for the email of a present account is answered and what it leaves of the account: only
      an open account has its password checked; a wrong one is counted and from the threshold on locks,
      the right one clears the failures and gives a session, or a challenge where the second factor is
      enabled. */
  lemma {:induction false} SignInExact(e: Env, w: World, c: Call, u: Id)
    requires Admissible(e, w, c) && c.request.SignIn?
    requires UniqueEmails(w.store.users) && HasEmail(w.store.users, u, c.request.email)
    ensures var s, q, (w', a) := w.store, c.request, Step(e, w, c);
            var x := s.users[u];
            var n := x.failedLoginAttempts + 1;
            if !Open(s.users, u, c.at) then a == Rejected(Unauthorized) && w'.store == s
            else if e.factors.argon2(x.passwordHash, q.password) != Match then
              a == Rejected(Unauthorized)
              && w'.store == s.(users := s.users[u := x.(
                   failedLoginAttempts := n,
                   lockedUntil := if n >= e.lockout.max then Some(c.at + e.lockout.lockMs) else x.lockedUntil)])
            else
              && a == (if x.twoFactorEnabled then Challenge(Jwt(u, TwoFactorType, c.at + e.challengeTtl))
                       else SessionFor(e, u, q.grant, c.at))
              && w'.store == s.(
                   users := s.users[u := x.(failedLoginAttempts := 0, lockedUntil := None)],
                   tokens := if x.twoFactorEnabled then s.tokens
                             else Issue(e.sessions, s.tokens, u, q.grant, c.at))
  {
    var s, q := w.store, c.request;
    LoginDecided(e, s, q.email, q.password, q.grant, c.at, u);
    CredentialsExact(e.factors.argon2, e.lockout, s.users, q.email, q.password, c.at, u);
    LoginUsers(e, s, q.email, q.password, q.grant, c.at);
    LoginFrame(e, s, q.email, q.password, q.grant, c.at);
    hide Login, ValidateCredentials, Issue, UniqueEmails, Drawn;
  }

  /** A login for an email no present account has changes nothing and is refused alike. */
  lemma {:induction false} LoginUnknown(e: Env, w: World, c: Call)
    requires Admissible(e, w, c) && c.request.SignIn?
    requires forall u :: !HasEmail(w.store.users, u, c.request.email)
    ensures Step(e, w, c).1 == Rejected(Unauthorized) && Step(e, w, c).0.store == w.store
  {
    hide Drawn;
    assert FindByEmail(w.store.users, c.request.email).None?;
  }

  lemma {:induction false} SecondStepDecided(
      e: Env, s: Store, payload: Option<Jwt>, code: string, order: seq<Id>, g: Grant, now: int)
    requires payload.Some? ==> Listed(s, payload.value.sub, order)
    ensures var (s', a) := LoginSecondFactor(e, s, payload, code, order, g, now);
            if payload.None? || payload.value.typ != TwoFactorType || !Usable(s.users, payload.value.sub)
               || !s.users[payload.value.sub].twoFactorEnabled
            then a == Rejected(Unauthorized) && s' == s
            else
              var u := payload.value.sub;
              var (codes', v) := VerifyCode(e.factors, s.codes, u, s.users[u], code, order, now);
              if Accepted(v) then
                a == SessionFor(e, u, g, now)
                && s' == s.(codes := codes', tokens := Issue(e.sessions, s.tokens, u, g, now))
              else a == Rejected(if v.Failed? then ServerError else Unauthorized) && s' == s.(codes := codes')
  {
    hide VerifyCode, Issue, Lists;
    if ChallengedUser(s, payload).Some? {
      var u := payload.value.sub;
      assert ChallengedUser(s, payload) == Some(s.users[u]);
      var (codes', v) := VerifyCode(e.factors, s.codes, u, s.users[u], code, order, now);
      assert v.Failed? || v.Denied? || Accepted(v);
    }
  }

  /** The second step gives a session exactly for an unexpired signed challenge of a usable account with
      the second factor enabled and an accepted code. */
  lemma {:induction false} SecondStepExact(e: Env, w: World, c: Call)
    requires Admissible(e, w, c) && c.request.SecondStep?
    ensures var s, q, (w', a) := w.store, c.request, Step(e, w, c);
            var u := q.token.sub;
            if q.token !in w.jwts || c.at >= q.token.exp || q.token.typ != TwoFactorType || !Usable(s.users, u)
               || !s.users[u].twoFactorEnabled
            then a == Rejected(Unauthorized) && w'.store == s
            else
              var (codes', v) := VerifyCode(e.factors, s.codes, u, s.users[u], q.code, q.order, c.at);
              if Accepted(v) then
                a == SessionFor(e, u, q.grant, c.at)
                && w'.store == s.(codes := codes', tokens := Issue(e.sessions, s.tokens, u, q.grant, c.at))
              else a == Rejected(if v.Failed? then ServerError else Unauthorized) && w'.store == s.(codes := codes')
  {
    var q := c.request;
    SecondStepDecided(e, w.store, VerifyJwt(w, q.token, c.at), q.code, q.order, q.grant, c.at);
    hide LoginSecondFactor, VerifyCode, Issue, Drawn, Lists;
  }

  // ----- sessions ------------------------------------------------------------

  lemma {:induction false} RefreshDecided(e: Env, s: Store, raw: string, g: Grant, now: int)
    requires Drawn(s.tokens, g)
    ensures var (s', a), p := Refresh(e, s, raw, g, now), Parse(raw);
            var good := p.Some? && p.value.id in s.tokens && s.tokens[p.value.id].revokedAt.None?
                        && now <= s.tokens[p.value.id].expiresAt
                        && e.sessions.sha256(p.value.secret) == s.tokens[p.value.id].tokenHash;
            && a == (if good && Usable(s.users, s.tokens[p.value.id].userId)
                     then SessionFor(e, s.tokens[p.value.id].userId, g, now) else Rejected(Unauthorized))
            && s' == s.(tokens := s'.tokens)
  {
    RotateExact(e.sessions, s.tokens, raw, g, now);
    hide Rotate, Parse, RevokeAllForUser, Drawn;
  }

  /** A renewal is answered with tokens exactly when the token names a stored, unrevoked, unexpired row,
      shows a secret with its hash, and the row's account is usable; every refusal looks the same. */
  lemma {:induction false} RenewalExact(e: Env, w: World, c: Call)
    requires Admissible(e, w, c) && c.request.Renewal?
    ensures var s, q, p, (w', a) := w.store, c.request, Parse(c.request.raw), Step(e, w, c);
            var good := p.Some? && p.value.id in s.tokens && s.tokens[p.value.id].revokedAt.None?
                        && c.at <= s.tokens[p.value.id].expiresAt
                        && e.sessions.sha256(p.value.secret) == s.tokens[p.value.id].tokenHash;
            && a == (if good && Usable(s.users, s.tokens[p.value.id].userId)
                     then SessionFor(e, s.tokens[p.value.id].userId, q.grant, c.at) else Rejected(Unauthorized))
            && w'.store == s.(tokens := w'.store.tokens)
  {
    RefreshDecided(e, w.store, c.request.raw, c.request.grant, c.at);
    hide Refresh, Parse, Drawn;
  }

  /** Signing out revokes the row the token names, if it is there unrevoked, and nothing else; it always
      succeeds, whatever secret is shown. */
  lemma {:induction false} SignOutExact(e: Env, w: World, c: Call)
    requires Admissible(e, w, c) && c.request.SignOut?
    ensures var s, p, (w', a) := w.store, Parse(c.request.raw), Step(e, w, c);
            && a == Done
            && w'.store == if p.Some? && p.value.id in s.tokens && s.tokens[p.value.id].revokedAt.None?
                           then s.(tokens := s.tokens[p.value.id := s.tokens[p.value.id].(revokedAt := Some(c.at))])
                           else s
  {
    hide Parse;
  }

  /** Signing out everywhere revokes exactly the unrevoked rows of the user. */
  lemma {:induction false} SignOutAllExact(e: Env, w: World, c: Call, id: Id)
    requires Admissible(e, w, c) && c.request.SignOutAll?
    ensures var s, (w', a) := w.store, Step(e, w, c);
            && a == Done && w'.store == s.(tokens := w'.store.tokens)
            && w'.store.tokens.Keys == s.tokens.Keys
            && (id in s.tokens ==>
                  w'.store.tokens[id] ==
                    if s.tokens[id].userId == c.request.userId && s.tokens[id].revokedAt.None?
                    then s.tokens[id].(revokedAt := Some(c.at)) else s.tokens[id])
  {
  }

  // ----- passwords -----------------------------------------------------------

  /** A password is changed exactly for a present account whose current password is given; it then
      replaces the hash, clears failures and lock, and ends every session. */
  lemma {:induction false} PasswordChangeExact(e: Env, w: World, c: Call)
    requires Admissible(e, w, c) && c.request.PasswordChange?
    ensures var s, q, (w', a) := w.store, c.request, Step(e, w, c);
            var u := q.userId;
            if Present(s.users, u) && e.factors.argon2(s.users[u].passwordHash, q.current) == Match then
              a == Done
              && w'.store == s.(
                   users := s.users[u := s.users[u].(
                     passwordHash := q.newHash, failedLoginAttempts := 0, lockedUntil := None)],
                   tokens := RevokeAllForUser(s.tokens, u, c.at))
            else a == Rejected(Unauthorized) && w'.store == s
  {
    hide RevokeAllForUser;
  }

  /** A reset request is answered alike in every case; it stores a token exactly for a usable account. */
  lemma {:induction false} ResetRequestExact(e: Env, w: World, c: Call, u: Id)
    requires Admissible(e, w, c) && c.request.ResetRequest? && UniqueEmails(w.store.users)
    ensures var s, q, (w', a) := w.store, c.request, Step(e, w, c);
            && a == Done
            && (HasEmail(s.users, u, q.email) ==>
                  w'.store == if s.users[u].isActive
                              then s.(resets := s.resets[q.id := ResetToken(
                                        u, e.sessions.sha256(q.raw), c.at + e.resetTtl, None)])
                              else s)
            && ((forall v :: !HasEmail(s.users, v, q.email)) ==> w'.store == s)
  {
    hide FindByHash;
    if HasEmail(w.store.users, u, c.request.email) {
      assert FindByEmail(w.store.users, c.request.email) == Some(u);
    }
  }

  lemma {:induction false} ResetDecided(e: Env, s: Store, raw: string, newHash: string, now: int, id: Id)
    requires UniqueHashes(s.resets)
    ensures var (s', a) := Reset(e, s, raw, newHash, now);
            && ((forall k :: !HasHash(s.resets, k, e.sessions.sha256(raw))) ==> a == Rejected(BadRequest) && s' == s)
            && (HasHash(s.resets, id, e.sessions.sha256(raw)) ==>
                  var r := s.resets[id];
                  if r.usedAt.Some? || r.expiresAt < now then a == Rejected(BadRequest) && s' == s
                  else if r.userId !in s.users then a == Rejected(ServerError) && s' == s
                  else a == Done)
  {
    hide RevokeAllForUser, InvalidateAllForUser, SetPassword, Resets.MarkUsed;
    if HasHash(s.resets, id, e.sessions.sha256(raw)) {
      assert FindByHash(s.resets, e.sessions.sha256(raw)) == Some(id);
    }
  }

  /** A reset succeeds exactly for a stored, unused, unexpired token of an account there is. */
  lemma {:induction false} ResetExact(e: Env, w: World, c: Call, id: Id)
    requires Admissible(e, w, c) && c.request.ResetRedeem? && UniqueHashes(w.store.resets)
    ensures var s, q, (w', a) := w.store, c.request, Step(e, w, c);
            && ((forall k :: !HasHash(s.resets, k, e.sessions.sha256(q.raw))) ==>
                  a == Rejected(BadRequest) && w'.store == s)
            && (HasHash(s.resets, id, e.sessions.sha256(q.raw)) ==>
                  var r := s.resets[id];
                  if r.usedAt.Some? || r.expiresAt < c.at then a == Rejected(BadRequest) && w'.store == s
                  else if r.userId !in s.users then a == Rejected(ServerError) && w'.store == s
                  else a == Done)
  {
    ResetDecided(e, w.store, c.request.raw, c.request.newHash, c.at, id);
    hide Reset, UniqueHashes;
  }

  // ----- the second factor ---------------------------------------------------

  /** Setup stores the base32 text of the drawn key, and touches nothing else. */
  lemma {:induction false} SetupExact(e: Env, w: World, c: Call)
    requires Admissible(e, w, c) && c.request.FactorSetup?
    ensures var s, q, (w', a) := w.store, c.request, Step(e, w, c);
            var u := q.userId;
            if u in s.users then
              a == Enrolling(Base32.Encoded(q.random))
              && w'.store == s.(users := s.users[u := s.users[u].(twoFactorSecret := Some(Base32.Encoded(q.random)))])
            else a == Rejected(ServerError) && w'.store == s
  {
    hide Base32.Encoded;
  }

  /** What enabling answers and stores. */
  ghost predicate EnableDecision(
      e: Env, s: Store, s': Store, a: Answer, u: Id, code: string, ids: seq<Id>, hashes: seq<string>, now: int)
    requires Fresh(s.codes, ids, hashes)
  {
    if !Present(s.users, u) || s.users[u].twoFactorSecret.None? || s.users[u].twoFactorSecret.value == "" then
      a == Rejected(BadRequest) && s' == s
    else
      match Totp.Verified(e.factors.hmac, s.users[u].twoFactorSecret.value, code, 1, now)
      case Ok(true) =>
        a == Done
        && s' == s.(users := s.users[u := s.users[u].(twoFactorEnabled := true)],
                    codes := ReplaceCodes(s.codes, u, ids, hashes))
      case Ok(false) => a == Rejected(BadRequest) && s' == s
      case RangeError => a == Rejected(ServerError) && s' == s
  }

  lemma {:induction false} EnableDecided(
      e: Env, s: Store, u: Id, code: string, ids: seq<Id>, hashes: seq<string>, now: int)
    requires Fresh(s.codes, ids, hashes)
    ensures var (s', a) := EnableTwoFactor(e, s, u, code, ids, hashes, now);
            EnableDecision(e, s, s', a, u, code, ids, hashes, now)
  {
    hide Fresh, ReplaceCodes, Totp.Verified;
  }

  /** Enabling succeeds exactly for a present account with a stored secret and a current code of it, and
      then sets the flag, keeps the secret and installs the ten new codes. */
  lemma {:induction false} EnableExact(e: Env, w: World, c: Call)
    requires Admissible(e, w, c) && c.request.FactorEnable?
    requires Fresh(w.store.codes, c.request.ids, c.request.hashes)
    ensures var q, (w', a) := c.request, Step(e, w, c);
            EnableDecision(e, w.store, w'.store, a, q.userId, q.code, q.ids, q.hashes, c.at)
  {
    var q := c.request;
    EnableDecided(e, w.store, q.userId, q.code, q.ids, q.hashes, c.at);
    hide EnableTwoFactor, Fresh, EnableDecision;
  }

  lemma {:induction false} DisableDecided(e: Env, s: Store, u: Id, code: string, order: seq<Id>, now: int)
    requires Listed(s, u, order)
    ensures var (s', a) := DisableTwoFactor(e, s, u, code, order, now);
            if !Present(s.users, u) || !s.users[u].twoFactorEnabled then a == Rejected(BadRequest) && s' == s
            else
              var (codes', v) := VerifyCode(e.factors, s.codes, u, s.users[u], code, order, now);
              if Accepted(v) then
                a == Done
                && s' == s.(users := s.users[u := s.users[u].(twoFactorEnabled := false, twoFactorSecret := None)],
                            codes := DeleteAllForUser(codes', u))
              else a == Rejected(if v.Failed? then ServerError else BadRequest) && s' == s.(codes := codes')
  {
    hide VerifyCode, DeleteAllForUser, Lists;
  }

  /** Disabling succeeds exactly for a present account with the second factor enabled and an accepted
      code; it then drops flag, secret and recovery codes. */
  lemma {:induction false} DisableExact(e: Env, w: World, c: Call)
    requires Admissible(e, w, c) && c.request.FactorDisable?
    ensures var s, q, (w', a) := w.store, c.request, Step(e, w, c);
            var u := q.userId;
            if !Present(s.users, u) || !s.users[u].twoFactorEnabled then a == Rejected(BadRequest) && w'.store == s
            else
              var (codes', v) := VerifyCode(e.factors, s.codes, u, s.users[u], q.code, q.order, c.at);
              if Accepted(v) then
                a == Done
                && w'.store == s.(
                     users := s.users[u := s.users[u].(twoFactorEnabled := false, twoFactorSecret := None)],
                     codes := DeleteAllForUser(codes', u))
              else a == Rejected(if v.Failed? then ServerError else BadRequest) && w'.store == s.(codes := codes')
  {
    var q := c.request;
    DisableDecided(e, w.store, q.userId, q.code, q.order, c.at);
    hide DisableTwoFactor, VerifyCode, DeleteAllForUser, Lists;
  }
}
