/** The refresh_tokens table: the updates of `refresh-token.repository.ts` as functions on the
    table, the invariant of its `replacedById` links, and the shape the invariant forces. */
module TokenTable {
  import opened Text

  type Id = string

  /** `serial` is the row's position in creation order; the application never deletes a row. */
  datatype RefreshToken = RefreshToken(
    userId: Id,
    tokenHash: string,
    expiresAt: int,
    revokedAt: Option<int>,
    replacedById: Option<Id>,
    serial: nat)

  type Table = map<Id, RefreshToken>

  function Create(t: Table, id: Id, userId: Id, tokenHash: string, expiresAt: int): Table {
    t[id := RefreshToken(userId, tokenHash, expiresAt, None, None, |t|)]
  }

  /** A link that is not given leaves the stored one as it is. */
  function Revoke(t: Table, id: Id, replacedById: Option<Id>, now: int): Table
    requires id in t
  {
    t[id := t[id].(revokedAt := Some(now),
                   replacedById := if replacedById.Some? then replacedById else t[id].replacedById)]
  }

  function RevokeAllForUser(t: Table, userId: Id, now: int): Table {
    map id | id in t ::
      if t[id].userId == userId && t[id].revokedAt.None? then t[id].(revokedAt := Some(now)) else t[id]
  }

  /** The rows of a user that can still rotate, expiry and secret aside. */
  function Active(t: Table, userId: Id): set<Id> {
    set id | id in t && t[id].userId == userId && t[id].revokedAt.None?
  }

  // ----- what never changes, and what only changes one way -------------------

  ghost predicate RowEvolves(r: RefreshToken, r': RefreshToken) {
    && r'.userId == r.userId && r'.tokenHash == r.tokenHash
    && r'.expiresAt == r.expiresAt && r'.serial == r.serial
    && (r.revokedAt.Some? ==> r'.revokedAt.Some?)
  }

  /** No row disappears, moves to another user or another secret, or becomes unrevoked. */
  ghost predicate Evolves(t: Table, t': Table) {
    forall id :: id in t ==> id in t' && RowEvolves(t[id], t'[id])
  }

  lemma {:induction false} EvolvesReflexive(t: Table)
    ensures Evolves(t, t)
  {
  }

  lemma {:induction false} EvolvesTransitive(t: Table, t': Table, t'': Table)
    requires Evolves(t, t') && Evolves(t', t'')
    ensures Evolves(t, t'')
  {
    forall id | id in t
      ensures id in t'' && RowEvolves(t[id], t''[id])
    {
      assert RowEvolves(t[id], t'[id]);
      assert RowEvolves(t'[id], t''[id]);
    }
  }

  lemma {:induction false} RowStays(t: Table, t': Table, id: Id)
    requires Evolves(t, t') && id in t
    ensures id in t' && RowEvolves(t[id], t'[id])
  {
  }

  lemma {:induction false} NoneActive(t: Table, userId: Id, id: Id)
    requires Active(t, userId) == {} && id in t && t[id].userId == userId
    ensures t[id].revokedAt.Some?
  {
    assert id !in Active(t, userId);
  }

  // ----- the links -----------------------------------------------------------

  ghost predicate LinkOk(t: Table, id: Id)
    requires id in t
  {
    t[id].replacedById.Some? ==>
      var next := t[id].replacedById.value;
      && next in t && t[id].serial < t[next].serial
      && t[next].userId == t[id].userId
      && t[id].revokedAt.Some?
  }

  ghost predicate OnePredecessor(t: Table) {
    forall a, b ::
      a in t && b in t && t[a].replacedById.Some? && t[a].replacedById == t[b].replacedById ==>
      a == b
  }

  /** A successor exists, was created later and has the same user; a linked row is revoked; and no
      two rows have the same successor. */
  ghost predicate WellLinked(t: Table) {
    && (forall id :: id in t ==> t[id].serial < |t|)
    && (forall id :: id in t ==> LinkOk(t, id))
    && OnePredecessor(t)
  }

  ghost predicate HasPredecessor(t: Table, id: Id) {
    exists p :: p in t && t[p].replacedById == Some(id)
  }

  lemma {:induction false} CreateKeeps(t: Table, id: Id, userId: Id, tokenHash: string, expiresAt: int)
    requires WellLinked(t) && id !in t
    ensures var t' := Create(t, id, userId, tokenHash, expiresAt);
            WellLinked(t') && Evolves(t, t') && !HasPredecessor(t', id)
  {
    var t' := Create(t, id, userId, tokenHash, expiresAt);
    assert |t'| == |t| + 1;
    forall k | k in t'
      ensures LinkOk(t', k)
    {
      if k in t {
        assert LinkOk(t, k);
      }
    }
    forall p | p in t'
      ensures t'[p].replacedById != Some(id)
    {
      assert p in t ==> LinkOk(t, p);
    }
  }

  lemma {:induction false} RevokeKeepsOnePredecessor(t: Table, id: Id, link: Option<Id>, now: int)
    requires OnePredecessor(t) && id in t
    requires link.Some? ==> !HasPredecessor(t, link.value)
    ensures OnePredecessor(Revoke(t, id, link, now))
  {
  }

  ghost predicate LinkAllowed(t: Table, id: Id, link: Option<Id>)
    requires id in t
  {
    link.Some? ==>
      var next := link.value;
      && next in t && t[id].serial < t[next].serial
      && t[next].userId == t[id].userId && !HasPredecessor(t, next)
  }

  lemma {:induction false} RevokeKeepsLink(t: Table, id: Id, link: Option<Id>, now: int, k: Id)
    requires id in t && LinkAllowed(t, id, link) && k in t && LinkOk(t, k)
    ensures LinkOk(Revoke(t, id, link, now), k)
  {
  }

  /** Linking keeps the invariant provided the successor has no predecessor yet. */
  lemma {:induction false} RevokeKeeps(t: Table, id: Id, link: Option<Id>, now: int)
    requires WellLinked(t) && id in t && LinkAllowed(t, id, link)
    ensures WellLinked(Revoke(t, id, link, now)) && Evolves(t, Revoke(t, id, link, now))
  {
    hide OnePredecessor, LinkOk;
    var t' := Revoke(t, id, link, now);
    assert t'.Keys == t.Keys;
    assert |t'| == |t'.Keys| == |t.Keys| == |t|;
    RevokeKeepsOnePredecessor(t, id, link, now);
    forall k | k in t'
      ensures LinkOk(t', k)
    {
      RevokeKeepsLink(t, id, link, now, k);
    }
  }

  lemma {:induction false} RevokeAllKeeps(t: Table, userId: Id, now: int)
    requires WellLinked(t)
    ensures var t' := RevokeAllForUser(t, userId, now);
            WellLinked(t') && Evolves(t, t') && Active(t', userId) == {}
  {
    var t' := RevokeAllForUser(t, userId, now);
    assert t'.Keys == t.Keys;
    assert |t'| == |t'.Keys| == |t.Keys| == |t|;
    forall k | k in t'
      ensures LinkOk(t', k)
    {
      assert LinkOk(t, k);
    }
  }

  // ----- paths ---------------------------------------------------------------

  ghost predicate Chain(t: Table, p: seq<Id>) {
    && p != []
    && (forall i :: 0 <= i < |p| ==> p[i] in t)
    && (forall i :: 0 < i < |p| ==> t[p[i - 1]].replacedById == Some(p[i]))
  }

  /** A maximal chain: nothing links to its first row and its last row links to nothing. */
  ghost predicate Path(t: Table, p: seq<Id>) {
    Chain(t, p) && !HasPredecessor(t, p[0]) && t[p[|p| - 1]].replacedById.None?
  }

  /** Along a chain rows are ever newer, so none repeats; all belong to one user; and all but the
      last are revoked, so at most the last row can be active. */
  lemma {:induction false} ChainShape(t: Table, p: seq<Id>, i: nat, j: nat)
    requires WellLinked(t) && Chain(t, p) && i < j < |p|
    ensures t[p[i]].serial < t[p[j]].serial && p[i] != p[j]
    ensures t[p[i]].userId == t[p[j]].userId
    ensures t[p[i]].revokedAt.Some?
    decreases j
  {
    assert LinkOk(t, p[j - 1]);
    if i == j - 1 {
    } else {
      ChainShape(t, p, i, j - 1);
    }
  }

  lemma {:induction false} ForwardChain(t: Table, id: Id) returns (p: seq<Id>)
    requires WellLinked(t) && id in t
    ensures Chain(t, p) && p[0] == id && t[p[|p| - 1]].replacedById.None?
    decreases |t| - t[id].serial
  {
    assert LinkOk(t, id);
    if t[id].replacedById.None? {
      p := [id];
    } else {
      var rest := ForwardChain(t, t[id].replacedById.value);
      p := [id] + rest;
      assert forall i :: 0 < i < |p| ==> p[i] == rest[i - 1];
    }
  }

  lemma {:induction false} BackwardChain(t: Table, id: Id) returns (p: seq<Id>)
    requires WellLinked(t) && id in t
    ensures Chain(t, p) && p[|p| - 1] == id && !HasPredecessor(t, p[0])
    decreases t[id].serial
  {
    if HasPredecessor(t, id) {
      var q :| q in t && t[q].replacedById == Some(id);
      assert LinkOk(t, q);
      var front := BackwardChain(t, q);
      p := front + [id];
    } else {
      p := [id];
    }
  }

  /** Every row lies on a path. */
  lemma {:induction false} PathThrough(t: Table, id: Id) returns (p: seq<Id>)
    requires WellLinked(t) && id in t
    ensures Path(t, p) && id in p
  {
    var front := BackwardChain(t, id);
    var back := ForwardChain(t, id);
    p := front + back[1..];
    var n := |front| - 1;
    assert p[n] == id;
    forall i | 0 < i < |p|
      ensures t[p[i - 1]].replacedById == Some(p[i])
    {
      if i > n {
        assert p[i] == back[i - n] && p[i - 1] == back[i - n - 1];
      }
    }
    assert p[|p| - 1] == back[|back| - 1];
  }

  lemma {:induction false} ChainLink(t: Table, p: seq<Id>, i: nat)
    requires Chain(t, p) && 0 < i < |p|
    ensures t[p[i - 1]].replacedById == Some(p[i]) && HasPredecessor(t, p[i])
  {
    assert p[i - 1] in t;
  }

  lemma {:induction false} PathStarts(t: Table, p: seq<Id>, q: seq<Id>, j: nat)
    requires Path(t, p) && Chain(t, q) && j < |q| && q[j] == p[0]
    ensures j == 0
  {
    if j > 0 {
      ChainLink(t, q, j);
    }
  }

  lemma {:induction false} PathsAlign(t: Table, p: seq<Id>, q: seq<Id>, i: nat, j: nat)
    requires WellLinked(t) && Path(t, p) && Path(t, q)
    requires i < |p| && j < |q| && p[i] == q[j]
    ensures i == j && p[..i + 1] == q[..j + 1]
    decreases i
  {
    if i == 0 {
      PathStarts(t, p, q, j);
    } else if j == 0 {
      PathStarts(t, q, p, i);
    } else {
      assert t[p[i - 1]].replacedById == Some(p[i]) == t[q[j - 1]].replacedById;
      PathsAlign(t, p, q, i - 1, j - 1);
      assert p[..i + 1] == p[..i] + [p[i]];
      assert q[..j + 1] == q[..j] + [q[j]];
    }
  }

  lemma {:induction false} PathsContinue(t: Table, p: seq<Id>, q: seq<Id>, i: nat)
    requires Path(t, p) && Path(t, q) && i < |p| && i < |q| && p[..i + 1] == q[..i + 1]
    ensures p == q
    decreases |p| - i
  {
    assert p[i] == p[..i + 1][i] == q[..i + 1][i] == q[i];
    if i == |p| - 1 {
      if i + 1 < |q| {
        ChainLink(t, q, i + 1);
      }
    } else {
      assert t[p[i]].replacedById == Some(p[i + 1]);
      assert i + 1 < |q|;
      assert t[q[i]].replacedById == Some(q[i + 1]);
      assert p[..i + 2] == p[..i + 1] + [p[i + 1]];
      assert q[..i + 2] == q[..i + 1] + [q[i + 1]];
      PathsContinue(t, p, q, i + 1);
    }
  }

  /** Paths are disjoint: two that share a row are the same path. */
  lemma {:induction false} PathsDisjoint(t: Table, p: seq<Id>, q: seq<Id>, id: Id)
    requires WellLinked(t) && Path(t, p) && Path(t, q) && id in p && id in q
    ensures p == q
  {
    var i :| 0 <= i < |p| && p[i] == id;
    var j :| 0 <= j < |q| && q[j] == id;
    PathsAlign(t, p, q, i, j);
    PathsContinue(t, p, q, i);
  }

  /** A path repeats no row, serves one user and has no active row except possibly its last. */
  ghost predicate PathShape(t: Table, p: seq<Id>) {
    forall i, j :: 0 <= i < j < |p| ==>
      && p[i] in t && p[j] in t && p[i] != p[j]
      && t[p[i]].userId == t[p[j]].userId && t[p[i]].revokedAt.Some?
  }

  ghost predicate OnPath(t: Table, id: Id) {
    exists p :: Path(t, p) && id in p
  }

  /** The links form disjoint acyclic paths: each row lies on exactly one. */
  ghost predicate DisjointPaths(t: Table) {
    && (forall id :: id in t ==> OnPath(t, id))
    && (forall p, q, id :: Path(t, p) && Path(t, q) && id in p && id in q ==> p == q)
    && (forall p :: Path(t, p) ==> PathShape(t, p))
  }

  lemma {:induction false} PathHasShape(t: Table, p: seq<Id>)
    requires WellLinked(t) && Path(t, p)
    ensures PathShape(t, p)
  {
    hide WellLinked, HasPredecessor;
    forall i: nat, j: nat | i < j < |p|
      ensures p[i] != p[j] && t[p[i]].userId == t[p[j]].userId && t[p[i]].revokedAt.Some?
    {
      ChainShape(t, p, i, j);
    }
  }

  lemma {:induction false} LinksFormPaths(t: Table)
    requires WellLinked(t)
    ensures DisjointPaths(t)
  {
    hide WellLinked, Path, PathShape;
    forall id | id in t
      ensures OnPath(t, id)
    {
      var p := PathThrough(t, id);
    }
    forall p, q, id | Path(t, p) && Path(t, q) && id in p && id in q
      ensures p == q
    {
      PathsDisjoint(t, p, q, id);
    }
    forall p | Path(t, p)
      ensures PathShape(t, p)
    {
      PathHasShape(t, p);
    }
  }
}
