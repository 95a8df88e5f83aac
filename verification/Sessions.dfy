/** The calls of `refresh-token.service.ts` as functions on the refresh_tokens table, each call one
    atomic step. SHA-256 is a parameter; the ids and secrets drawn by the database and the random
    source are arguments. */
module Sessions {
  import opened Text
  import opened TokenTable

  /** What a newly created token draws: the row id and the secret. */
  datatype Grant = Grant(id: Id, secret: string)

  datatype Config = Config(sha256: string -> string, ttl: int)

  datatype RotateError = Malformed | Unknown | Reused | Expired | BadSecret

  datatype Rotation =
    | Rotated(userId: Id, oldId: Id, newId: Id, token: string)
    | Refused(error: RotateError)

  /** The id column holds uuids: the database stores them in lower case and reads them in either. */
  function RowId(text: string): Id {
    Lower(text)
  }

  /** Ids are unused uuids and secrets are hexadecimal: neither is empty or holds a dot. */
  predicate Drawn(t: Table, g: Grant) {
    g.id !in t && g.id != "" && '.' !in g.id && RowId(g.id) == g.id && g.secret != "" && '.' !in g.secret
  }

  function RawToken(g: Grant): string {
    g.id + "." + g.secret
  }

  /** The row a token names and the secret it shows. */
  function Parse(raw: string): Option<Grant> {
    var parts := Split(raw, '.');
    var id, secret := parts[0], if |parts| > 1 then parts[1] else "";
    if id == "" || secret == "" then None else Some(Grant(RowId(id), secret))
  }

  /** The client's string reads back as the id and secret it was made from. */
  lemma {:induction false} ParseRaw(t: Table, g: Grant)
    requires Drawn(t, g)
    ensures Parse(RawToken(g)) == Some(g)
  {
    assert RawToken(g) == g.id + ['.'] + g.secret;
    SplitPrefix(g.id, '.', g.secret);
    SplitNone(g.secret, '.');
  }

  function Issue(c: Config, t: Table, userId: Id, g: Grant, now: int): Table {
    Create(t, g.id, userId, c.sha256(g.secret), now + c.ttl)
  }

  /** The checks of `rotate`, in the order of the source: revoked, expired, secret. */
  function Check(c: Config, t: Table, raw: string, now: int): Option<RotateError> {
    match Parse(raw)
    case None => Some(Malformed)
    case Some(p) =>
      if p.id !in t then Some(Unknown)
      else if t[p.id].revokedAt.Some? then Some(Reused)
      else if t[p.id].expiresAt < now then Some(Expired)
      else if c.sha256(p.secret) != t[p.id].tokenHash then Some(BadSecret)
      else None
  }

  function Rotate(c: Config, t: Table, raw: string, g: Grant, now: int): (Table, Rotation)
    requires Drawn(t, g)
  {
    match Check(c, t, raw, now)
    case Some(Reused) =>
      (RevokeAllForUser(t, t[Parse(raw).value.id].userId, now), Refused(Reused))
    case Some(e) => (t, Refused(e))
    case None =>
      var id := Parse(raw).value.id;
      var userId := t[id].userId;
      ParseRaw(t, g);
      var newId := Parse(RawToken(g)).value.id;
      (Revoke(Issue(c, t, userId, g, now), id, Some(newId), now), Rotated(userId, id, newId, RawToken(g)))
  }

  function Logout(t: Table, raw: string, now: int): Table {
    match Parse(raw)
    case None => t
    case Some(p) => if p.id in t && t[p.id].revokedAt.None? then Revoke(t, p.id, None, now) else t
  }

  // ----- when a rotation succeeds --------------------------------------------

  predicate Written(raw: string, text: string, secret: string, rest: string) {
    && raw == text + "." + secret + rest
    && text != "" && '.' !in text && secret != "" && '.' !in secret && (rest == "" || rest[0] == '.')
  }

  /** A token is the id of a row, in either case, a dot, and the secret up to a further dot, if any. */
  ghost predicate Names(raw: string, id: Id, secret: string) {
    exists text: string, rest: string :: Written(raw, text, secret, rest) && Lower(text) == id
  }

  lemma {:induction false} SplitTwo(text: string, secret: string, rest: string)
    requires '.' !in text && '.' !in secret && (rest == "" || rest[0] == '.')
    ensures var parts := Split(text + "." + secret + rest, '.');
            |parts| >= 2 && parts[0] == text && parts[1] == secret
  {
    assert text + "." + secret + rest == text + ['.'] + (secret + rest);
    SplitPrefix(text, '.', secret + rest);
    if rest == "" {
      assert secret + rest == secret;
      SplitNone(secret, '.');
    } else {
      assert secret + rest == secret + ['.'] + rest[1..];
      SplitPrefix(secret, '.', rest[1..]);
    }
  }

  lemma {:induction false} SplitBack(raw: string) returns (rest: string)
    requires |Split(raw, '.')| > 1
    ensures var parts := Split(raw, '.');
            && raw == parts[0] + "." + parts[1] + rest
            && '.' !in parts[0] && '.' !in parts[1] && (rest == "" || rest[0] == '.')
  {
    hide Split;
    var parts := Split(raw, '.');
    SplitFirst(raw, '.');
    var tail := raw[|parts[0]| + 1..];
    SplitFirst(tail, '.');
    assert parts[1] == parts[1..][0] == Split(tail, '.')[0];
    rest := tail[|parts[1]|..];
    assert raw == parts[0] + ['.'] + tail;
    assert tail == parts[1] + rest;
  }

  /** A string is read as a row id and a secret exactly when it is written that way. */
  lemma {:induction false} ParseExact(raw: string, id: Id, secret: string)
    ensures Parse(raw) == Some(Grant(id, secret)) <==> Names(raw, id, secret)
  {
    hide Lower, Split;
    if Names(raw, id, secret) {
      var text, rest :| Written(raw, text, secret, rest) && Lower(text) == id;
      SplitTwo(text, secret, rest);
    }
    if Parse(raw) == Some(Grant(id, secret)) {
      var rest := SplitBack(raw);
      assert Written(raw, Split(raw, '.')[0], secret, rest);
    }
  }

  /** A rotation succeeds if and only if the token names a stored, unrevoked, unexpired row and shows a
      secret with the stored hash. Otherwise the first test that fails says why, in this order. */
  lemma {:induction false} RotateExact(c: Config, t: Table, raw: string, g: Grant, now: int)
    requires Drawn(t, g)
    ensures var p, r := Parse(raw), Rotate(c, t, raw, g, now).1;
            var known := p.Some? && p.value.id in t;
            var live := known && t[p.value.id].revokedAt.None?;
            var current := live && now <= t[p.value.id].expiresAt;
            && (r == Refused(Malformed) <==> p.None?)
            && (r == Refused(Unknown) <==> p.Some? && !known)
            && (r == Refused(Reused) <==> known && !live)
            && (r == Refused(Expired) <==> live && !current)
            && (r == Refused(BadSecret) <==> current && c.sha256(p.value.secret) != t[p.value.id].tokenHash)
            && (r.Rotated? <==> current && c.sha256(p.value.secret) == t[p.value.id].tokenHash)
            && (r.Rotated? ==> r == Rotated(t[p.value.id].userId, p.value.id, g.id, g.id + "." + g.secret))
  {
    hide Parse, Issue, Revoke, RevokeAllForUser;
    ParseRaw(t, g);
  }

  // ----- what one call keeps -------------------------------------------------

  /** The table a successful rotation leaves: a new row for the user, the old row linked to it. */
  function Swapped(c: Config, t: Table, id: Id, g: Grant, now: int): Table
    requires id in t
  {
    Revoke(Issue(c, t, t[id].userId, g, now), id, Some(g.id), now)
  }

  lemma {:induction false} RotateSwaps(c: Config, t: Table, raw: string, g: Grant, now: int)
    requires Drawn(t, g)
    ensures Rotate(c, t, raw, g, now).1.Rotated? <==> Check(c, t, raw, now).None?
    ensures Check(c, t, raw, now).None? ==>
              var id := Parse(raw).value.id;
              && id in t && t[id].revokedAt.None?
              && Rotate(c, t, raw, g, now) == (Swapped(c, t, id, g, now), Rotated(t[id].userId, id, g.id, RawToken(g)))
  {
    hide Revoke, Issue, RevokeAllForUser, RawToken;
    ParseRaw(t, g);
  }

  lemma {:induction false} IssueKeeps(c: Config, t: Table, userId: Id, g: Grant, now: int)
    requires WellLinked(t) && Drawn(t, g)
    ensures var t' := Issue(c, t, userId, g, now);
            WellLinked(t') && Evolves(t, t')
  {
    hide WellLinked, Evolves, Create;
    CreateKeeps(t, g.id, userId, c.sha256(g.secret), now + c.ttl);
  }

  lemma {:induction false} SwapAllowed(c: Config, t: Table, id: Id, g: Grant, now: int)
    requires WellLinked(t) && id in t && Drawn(t, g)
    ensures LinkAllowed(Issue(c, t, t[id].userId, g, now), id, Some(g.id))
  {
    CreateKeeps(t, g.id, t[id].userId, c.sha256(g.secret), now + c.ttl);
    hide HasPredecessor, Evolves, OnePredecessor, LinkOk;
  }

  lemma {:induction false} SwapKeeps(c: Config, t: Table, id: Id, g: Grant, now: int)
    requires WellLinked(t) && id in t && Drawn(t, g)
    ensures WellLinked(Swapped(c, t, id, g, now)) && Evolves(t, Swapped(c, t, id, g, now))
  {
    var t1 := Issue(c, t, t[id].userId, g, now);
    assert id in t1;
    SwapAllowed(c, t, id, g, now);
    hide WellLinked, Evolves, LinkAllowed, Create, Revoke;
    IssueKeeps(c, t, t[id].userId, g, now);
    RevokeKeeps(t1, id, Some(g.id), now);
    EvolvesTransitive(t, t1, Swapped(c, t, id, g, now));
  }

  lemma {:induction false} RotateKeeps(c: Config, t: Table, raw: string, g: Grant, now: int)
    requires WellLinked(t) && Drawn(t, g)
    ensures var t' := Rotate(c, t, raw, g, now).0;
            WellLinked(t') && Evolves(t, t')
  {
    EvolvesReflexive(t);
    hide WellLinked, Evolves, Swapped, RevokeAllForUser;
    RotateSwaps(c, t, raw, g, now);
    match Check(c, t, raw, now)
    case Some(Reused) => RevokeAllKeeps(t, t[Parse(raw).value.id].userId, now);
    case Some(e) =>
    case None => SwapKeeps(c, t, Parse(raw).value.id, g, now);
  }

  lemma {:induction false} LogoutKeeps(t: Table, raw: string, now: int)
    requires WellLinked(t)
    ensures WellLinked(Logout(t, raw, now)) && Evolves(t, Logout(t, raw, now))
  {
    match Parse(raw)
    case None =>
    case Some(p) =>
      if p.id in t && t[p.id].revokedAt.None? {
        RevokeKeeps(t, p.id, None, now);
      }
  }

  // ----- counting sessions ---------------------------------------------------

  /** Issuing adds exactly one active row, to one user. */
  lemma {:induction false} IssueCounts(c: Config, t: Table, userId: Id, g: Grant, now: int, u: Id)
    requires Drawn(t, g)
    ensures var t' := Issue(c, t, userId, g, now);
            && Active(t', u) == Active(t, u) + (if u == userId then {g.id} else {})
            && |Active(t', u)| == |Active(t, u)| + (if u == userId then 1 else 0)
  {
    assert g.id !in Active(t, u);
  }

  lemma {:induction false} SwapCounts(c: Config, t: Table, id: Id, g: Grant, now: int, u: Id)
    requires Drawn(t, g) && id in t && t[id].revokedAt.None?
    ensures var t' := Swapped(c, t, id, g, now);
            && Active(t', u) == (if u == t[id].userId then Active(t, u) - {id} + {g.id} else Active(t, u))
            && |Active(t', u)| == |Active(t, u)|
  {
    var a, a' := Active(t, u), Active(Swapped(c, t, id, g, now), u);
    assert g.id !in a;
    if u == t[id].userId {
      assert id in a;
      assert a' == a - {id} + {g.id};
    } else {
      assert a' == a;
    }
  }

  /** A successful rotation swaps one active row of its user for a new one: it conserves every
      user's number of sessions, and marks the old row replaced by the new. */
  lemma {:induction false} RotateCounts(c: Config, t: Table, raw: string, g: Grant, now: int, u: Id)
    requires Drawn(t, g) && Rotate(c, t, raw, g, now).1.Rotated?
    ensures var (t', r) := Rotate(c, t, raw, g, now);
            && r.oldId in Active(t, r.userId) && r.newId !in t && r.newId in t'
            && t'[r.oldId].revokedAt == Some(now) && t'[r.oldId].replacedById == Some(r.newId)
            && Active(t', u) == (if u == r.userId then Active(t, u) - {r.oldId} + {r.newId} else Active(t, u))
            && |Active(t', u)| == |Active(t, u)|
  {
    RotateSwaps(c, t, raw, g, now);
    SwapCounts(c, t, Parse(raw).value.id, g, now, u);
    hide Rotate;
  }

  /** Logging out removes at most the named row, and no row of anyone else. */
  lemma {:induction false} LogoutCounts(t: Table, raw: string, now: int, u: Id)
    ensures var t' := Logout(t, raw, now);
            var gone := if Parse(raw).Some? then {Parse(raw).value.id} else {};
            && Active(t', u) == Active(t, u) - gone
            && |Active(t, u)| - 1 <= |Active(t', u)| <= |Active(t, u)|
  {
    var t' := Logout(t, raw, now);
    var gone := if Parse(raw).Some? then {Parse(raw).value.id} else {};
    assert Active(t', u) == Active(t, u) - gone;
    assert |Active(t, u) * gone| <= 1 by {
      if Parse(raw).Some? && Parse(raw).value.id in Active(t, u) {
        assert Active(t, u) * gone == gone;
      } else {
        assert Active(t, u) * gone == {};
      }
    }
    assert Active(t, u) == (Active(t, u) - gone) + (Active(t, u) * gone);
  }

  /** Revoking everything leaves the user no session and the others theirs. */
  lemma {:induction false} RevokeAllCounts(t: Table, userId: Id, now: int, u: Id)
    ensures Active(RevokeAllForUser(t, userId, now), u) == if u == userId then {} else Active(t, u)
  {
  }

  /** Presenting a revoked token, with whatever secret, leaves its user without a session and every
      other user's rows as they were; every other refusal changes nothing at all. */
  lemma {:induction false} ReuseResponse(c: Config, t: Table, raw: string, g: Grant, now: int)
    requires Drawn(t, g) && Rotate(c, t, raw, g, now).1.Refused?
    ensures var (t', r) := Rotate(c, t, raw, g, now);
            r.error.Reused? <==> Parse(raw).Some? && Parse(raw).value.id in t
                                 && t[Parse(raw).value.id].revokedAt.Some?
    ensures var (t', r) := Rotate(c, t, raw, g, now);
            if r.error.Reused? then
              && Active(t', t[Parse(raw).value.id].userId) == {}
              && t'.Keys == t.Keys
              && (forall id :: id in t && t[id].userId != t[Parse(raw).value.id].userId ==> t'[id] == t[id])
            else t' == t
  {
  }

  /** A token rotates only if its row is unrevoked: a row once revoked is refused in every table the
      present one can evolve to. */
  lemma {:induction false} RevokedForever(c: Config, t: Table, t': Table, raw: string, g: Grant, now: int)
    requires Evolves(t, t') && Drawn(t', g)
    requires Parse(raw).Some? && Parse(raw).value.id in t && t[Parse(raw).value.id].revokedAt.Some?
    ensures Rotate(c, t', raw, g, now).1 == Refused(Reused)
  {
    assert RowEvolves(t[Parse(raw).value.id], t'[Parse(raw).value.id]);
  }
}
