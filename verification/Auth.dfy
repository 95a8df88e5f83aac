/** The service calls of `auth.service.ts`, `two-factor.service.ts`, `password-reset.service.ts` and
    the user administration that bears on them, each as one atomic function on the four tables. */
module Auth {
  import opened Text
  import Base32
  import opened TokenTable
  import opened Sessions
  import opened Accounts
  import opened SecondFactor
  import opened Resets

  datatype Env = Env(
    sessions: Config,
    lockout: Lockout,
    factors: Factors,
    accessTtl: int,
    challengeTtl: int,
    resetTtl: int)

  datatype Store = Store(users: Users, tokens: Table, codes: Codes, resets: ResetTokens)

  /** The claims of a signed token; `typ` is absent on access tokens. */
  datatype TokenType = Absent | AccessType | TwoFactorType
  datatype Jwt = Jwt(sub: Id, typ: TokenType, exp: int)

  datatype Reason = Unauthorized | BadRequest | Conflict | NotFound | ServerError

  datatype Answer =
    | Session(userId: Id, access: Jwt, refresh: string)
    | Challenge(token: Jwt)
    | Enrolling(secret: string)
    | Done
    | Rejected(reason: Reason)

  function AccessToken(e: Env, userId: Id, now: int): Jwt {
    Jwt(userId, Absent, now + e.accessTtl)
  }

  function ChallengeToken(e: Env, userId: Id, now: int): Jwt {
    Jwt(userId, TwoFactorType, now + e.challengeTtl)
  }

  /** `buildAuthResponse` without an existing refresh token: a new session starts. */
  function StartSession(e: Env, s: Store, userId: Id, g: Grant, now: int): (Store, Answer) {
    (s.(tokens := Issue(e.sessions, s.tokens, userId, g, now)),
     Session(userId, AccessToken(e, userId, now), RawToken(g)))
  }

  /** `UsersService.create`. A deleted row still occupies its email: the unique column refuses the
      insert. */
  ghost function CreateUser(s: Store, email: string, passwordHash: string, isActive: Option<bool>, id: Id)
    : (Store, Answer)
  {
    if FindByEmail(s.users, email).Some? then (s, Rejected(Conflict))
    else if exists u :: u in s.users && s.users[u].email == email then (s, Rejected(ServerError))
    else
      (s.(users := s.users[id := User(email, passwordHash, isActive != Some(false), false, None, 0, None, false)]),
       Done)
  }

  ghost function Register(e: Env, s: Store, email: string, passwordHash: string, id: Id, g: Grant, now: int)
    : (Store, Answer)
  {
    var (s', a) := CreateUser(s, email, passwordHash, None, id);
    if a.Rejected? then (s', a) else StartSession(e, s', id, g, now)
  }

  ghost function LoginCheck(e: Env, s: Store, email: string, password: string, now: int): (Users, Credentials) {
    ValidateCredentials(e.factors.argon2, e.lockout, s.users, email, password, now)
  }

  ghost function Login(e: Env, s: Store, email: string, password: string, g: Grant, now: int): (Store, Answer) {
    var (users', c) := LoginCheck(e, s, email, password, now);
    var s' := s.(users := users');
    if !c.Valid? then (s', Rejected(Unauthorized))
    else if c.entity.twoFactorEnabled then (s', Challenge(ChallengeToken(e, c.id, now)))
    else StartSession(e, s', c.id, g, now)
  }

  /** The account a verified challenge may complete a login for. */
  function ChallengedUser(s: Store, payload: Option<Jwt>): Option<User> {
    if payload.None? || payload.value.typ != TwoFactorType then None
    else match FindById(s.users, payload.value.sub)
      case None => None
      case Some(user) => if user.isActive && user.twoFactorEnabled then Some(user) else None
  }

  predicate Listed(s: Store, userId: Id, order: seq<Id>) {
    Lists(order, Unused(s.codes, userId))
  }

  /** The second step of a login; `payload` is what verifying the presented JWT yields. */
  function LoginSecondFactor(e: Env, s: Store, payload: Option<Jwt>, code: string, order: seq<Id>, g: Grant, now: int)
    : (Store, Answer)
    requires payload.Some? ==> Listed(s, payload.value.sub, order)
  {
    match ChallengedUser(s, payload)
    case None => (s, Rejected(Unauthorized))
    case Some(user) =>
      var userId := payload.value.sub;
      var (codes', v) := VerifyCode(e.factors, s.codes, userId, user, code, order, now);
      var s' := s.(codes := codes');
      if v.Failed? then (s', Rejected(ServerError))
      else if v.Denied? then (s', Rejected(Unauthorized))
      else StartSession(e, s', userId, g, now)
  }

  function ChangePassword(e: Env, s: Store, userId: Id, current: string, newHash: string, now: int): (Store, Answer) {
    match FindById(s.users, userId)
    case None => (s, Rejected(Unauthorized))
    case Some(user) =>
      if e.factors.argon2(user.passwordHash, current) != Match then (s, Rejected(Unauthorized))
      else (s.(users := SetPassword(s.users, userId, newHash),
               tokens := RevokeAllForUser(s.tokens, userId, now)), Done)
  }

  predicate LiveUser(users: Users, id: Id) {
    FindById(users, id).Some? && FindById(users, id).value.isActive
  }

  function Refresh(e: Env, s: Store, raw: string, g: Grant, now: int): (Store, Answer)
    requires Drawn(s.tokens, g)
  {
    var (tokens', r) := Rotate(e.sessions, s.tokens, raw, g, now);
    if r.Refused? then (s.(tokens := tokens'), Rejected(Unauthorized))
    else if !LiveUser(s.users, r.userId) then
      (s.(tokens := RevokeAllForUser(tokens', r.userId, now)), Rejected(Unauthorized))
    else (s.(tokens := tokens'), Session(r.userId, AccessToken(e, r.userId, now), r.token))
  }

  ghost function RequestReset(e: Env, s: Store, email: string, id: Id, raw: string, now: int): (Store, Answer) {
    match FindByEmail(s.users, email)
    case None => (s, Done)
    case Some(userId) =>
      if !s.users[userId].isActive then (s, Done)
      else (s.(resets := Resets.Create(s.resets, id, userId, e.sessions.sha256(raw), now + e.resetTtl)), Done)
  }

  ghost function RedeemedRow(e: Env, s: Store, raw: string, now: int): Option<Id> {
    Redeemable(s.resets, e.sessions.sha256(raw), now)
  }

  ghost function Reset(e: Env, s: Store, raw: string, newHash: string, now: int): (Store, Answer) {
    match RedeemedRow(e, s, raw, now)
    case None => (s, Rejected(BadRequest))
    case Some(id) =>
      var userId := s.resets[id].userId;
      if userId !in s.users then (s, Rejected(ServerError))
      else
        (s.(users := SetPassword(s.users, userId, newHash),
            tokens := RevokeAllForUser(s.tokens, userId, now),
            resets := InvalidateAllForUser(Resets.MarkUsed(s.resets, id, now), userId, now)), Done)
  }

  function Setup(s: Store, userId: Id, random: seq<Base32.Byte>): (Store, Answer) {
    var secret := Base32.Encoded(random);
    if userId !in s.users then (s, Rejected(ServerError))
    else (s.(users := SetTwoFactorSecret(s.users, userId, Some(secret))), Enrolling(secret))
  }

  function EnrolmentAnswer(r: Enrolment): Answer {
    match r
    case Enabled => Done
    case Disabled => Done
    case Broken => Rejected(ServerError)
    case _ => Rejected(BadRequest)
  }

  function EnableTwoFactor(
      e: Env, s: Store, userId: Id, code: string, ids: seq<Id>, hashes: seq<string>, now: int): (Store, Answer)
    requires Fresh(s.codes, ids, hashes)
  {
    var (users', codes', r) := Enable(e.factors, s.users, s.codes, userId, code, ids, hashes, now);
    (s.(users := users', codes := codes'), EnrolmentAnswer(r))
  }

  function DisableTwoFactor(e: Env, s: Store, userId: Id, code: string, order: seq<Id>, now: int): (Store, Answer)
    requires Listed(s, userId, order)
  {
    var (users', codes', r, v) := Disable(e.factors, s.users, s.codes, userId, code, order, now);
    (s.(users := users', codes := codes'), EnrolmentAnswer(r))
  }

  /** `UsersService.update`, as far as email and active flag go. */
  ghost function UpdateUser(s: Store, userId: Id, email: Option<string>, isActive: Option<bool>): (Store, Answer) {
    match FindById(s.users, userId)
    case None => (s, Rejected(NotFound))
    case Some(user) =>
      var newEmail := if email.Some? then email.value else user.email;
      if newEmail != "" && newEmail != user.email && FindByEmail(s.users, newEmail).Some? then
        (s, Rejected(Conflict))
      else if exists u :: u in s.users && u != userId && s.users[u].email == newEmail then
        (s, Rejected(ServerError))
      else
        (s.(users := s.users[userId := user.(email := newEmail,
              isActive := if isActive.Some? then isActive.value else user.isActive)]), Done)
  }

  /** `UsersService.remove`: the row stays, marked deleted and inactive. */
  function RemoveUser(s: Store, userId: Id): (Store, Answer) {
    match FindById(s.users, userId)
    case None => (s, Rejected(NotFound))
    case Some(user) => (s.(users := s.users[userId := user.(isActive := false, deleted := true)]), Done)
  }

  /** `JwtStrategy.validate` up to the roles: the account a verified token speaks for. */
  function Authenticate(users: Users, payload: Jwt): Option<Id> {
    if payload.typ == TwoFactorType then None
    else if LiveUser(users, payload.sub) then Some(payload.sub) else None
  }
}
