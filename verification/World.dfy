/** The whole authentication system as a state machine: the four tables, the tokens signed so far and
    a clock that never goes backwards. A trace is any sequence of service calls. */
module World {
  import opened Text
  import Base32
  import opened TokenTable
  import opened Sessions
  import opened SecondFactor
  import opened Resets
  import opened Auth

  datatype World = World(store: Store, jwts: set<Jwt>, now: int)

  datatype Request =
    | SignUp(email: string, passwordHash: string, id: Id, grant: Grant)
    | UserCreation(email: string, passwordHash: string, active: Option<bool>, id: Id)
    | SignIn(email: string, password: string, grant: Grant)
    | SecondStep(token: Jwt, code: string, order: seq<Id>, grant: Grant)
    | PasswordChange(userId: Id, current: string, newHash: string)
    | Renewal(raw: string, grant: Grant)
    | SignOut(raw: string)
    | SignOutAll(userId: Id)
    | ResetRequest(email: string, id: Id, raw: string)
    | ResetRedeem(raw: string, newHash: string)
    | FactorSetup(userId: Id, random: seq<Base32.Byte>)
    | FactorEnable(userId: Id, code: string, ids: seq<Id>, hashes: seq<string>)
    | FactorDisable(userId: Id, code: string, order: seq<Id>)
    | UserUpdate(userId: Id, newEmail: Option<string>, newActive: Option<bool>)
    | UserRemoval(userId: Id)

  /** A service call and the instant at which it runs. */
  datatype Call = Call(request: Request, at: int)

  /** What the environment guarantees: time does not run backwards, and drawn ids and secrets are
      new; a row order lists the rows there are. */
  ghost predicate Admissible(e: Env, w: World, c: Call) {
    && w.now <= c.at
    && (match c.request
        case SignUp(_, _, id, g) => id !in w.store.users && Drawn(w.store.tokens, g)
        case UserCreation(_, _, _, id) => id !in w.store.users
        case SignIn(_, _, g) => Drawn(w.store.tokens, g)
        case SecondStep(token, _, order, g) =>
          Drawn(w.store.tokens, g) && Listed(w.store, token.sub, order)
        case Renewal(_, g) => Drawn(w.store.tokens, g)
        case ResetRequest(_, id, raw) =>
          id !in w.store.resets && FindByHash(w.store.resets, e.sessions.sha256(raw)).None?
        case FactorSetup(_, random) => |random| == 20
        case FactorEnable(_, _, ids, hashes) => Fresh(w.store.codes, ids, hashes)
        case FactorDisable(userId, _, order) => Listed(w.store, userId, order)
        case _ => true)
  }

  /** The JWT library's verdict: tokens nobody signed and expired tokens do not verify. */
  ghost function VerifyJwt(w: World, token: Jwt, at: int): Option<Jwt> {
    if token in w.jwts && at < token.exp then Some(token) else None
  }

  ghost function Serve(e: Env, w: World, c: Call): (Store, Answer)
    requires Admissible(e, w, c)
  {
    var s := w.store;
    match c.request
    case SignUp(email, hash, id, g) => Register(e, s, email, hash, id, g, c.at)
    case UserCreation(email, hash, active, id) => CreateUser(s, email, hash, active, id)
    case SignIn(email, password, g) => Login(e, s, email, password, g, c.at)
    case SecondStep(token, code, order, g) =>
      LoginSecondFactor(e, s, VerifyJwt(w, token, c.at), code, order, g, c.at)
    case PasswordChange(userId, current, newHash) => ChangePassword(e, s, userId, current, newHash, c.at)
    case Renewal(raw, g) => Refresh(e, s, raw, g, c.at)
    case SignOut(raw) => (s.(tokens := Logout(s.tokens, raw, c.at)), Done)
    case SignOutAll(userId) => (s.(tokens := RevokeAllForUser(s.tokens, userId, c.at)), Done)
    case ResetRequest(email, id, raw) => RequestReset(e, s, email, id, raw, c.at)
    case ResetRedeem(raw, newHash) => Reset(e, s, raw, newHash, c.at)
    case FactorSetup(userId, random) => Setup(s, userId, random)
    case FactorEnable(userId, code, ids, hashes) => EnableTwoFactor(e, s, userId, code, ids, hashes, c.at)
    case FactorDisable(userId, code, order) => DisableTwoFactor(e, s, userId, code, order, c.at)
    case UserUpdate(userId, email, isActive) => UpdateUser(s, userId, email, isActive)
    case UserRemoval(userId) => RemoveUser(s, userId)
  }

  function Signed(a: Answer): set<Jwt> {
    match a
    case Session(_, access, _) => {access}
    case Challenge(token) => {token}
    case _ => {}
  }

  ghost function Step(e: Env, w: World, c: Call): (World, Answer)
    requires Admissible(e, w, c)
  {
    var (s', a) := Serve(e, w, c);
    (World(s', w.jwts + Signed(a), c.at), a)
  }

  ghost predicate Trace(e: Env, ws: seq<World>, cs: seq<Call>) {
    && |ws| == |cs| + 1
    && forall i :: 0 <= i < |cs| ==>
         Admissible(e, ws[i], cs[i]) && ws[i + 1] == Step(e, ws[i], cs[i]).0
  }

  ghost function AnswerAt(e: Env, ws: seq<World>, cs: seq<Call>, i: nat): Answer
    requires Trace(e, ws, cs) && i < |cs|
  {
    Step(e, ws[i], cs[i]).1
  }

  lemma {:induction false} TraceStep(e: Env, ws: seq<World>, cs: seq<Call>, i: nat)
    requires Trace(e, ws, cs) && i < |cs|
    ensures Admissible(e, ws[i], cs[i]) && ws[i + 1] == Step(e, ws[i], cs[i]).0
  {
  }
}
