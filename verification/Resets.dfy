/** Password-reset tokens: `password-reset.repository.ts` and the table side of
    `password-reset.service.ts`. */
module Resets {
  import opened Text
  import opened TokenTable

  datatype ResetToken = ResetToken(userId: Id, tokenHash: string, expiresAt: int, usedAt: Option<int>)

  type ResetTokens = map<Id, ResetToken>

  predicate HasHash(t: ResetTokens, id: Id, hash: string) {
    id in t && t[id].tokenHash == hash
  }

  /** `findFirst` by hash. */
  ghost function FindByHash(t: ResetTokens, hash: string): (r: Option<Id>)
    ensures r.Some? ==> HasHash(t, r.value, hash)
    ensures r.None? ==> forall id :: !HasHash(t, id, hash)
  {
    if exists id :: HasHash(t, id, hash) then
      var id :| HasHash(t, id, hash);
      Some(id)
    else None
  }

  /** Raw tokens are 256 random bits, so no two rows share a hash. */
  ghost predicate UniqueHashes(t: ResetTokens) {
    forall a, b :: a in t && b in t && t[a].tokenHash == t[b].tokenHash ==> a == b
  }

  function Create(t: ResetTokens, id: Id, userId: Id, hash: string, expiresAt: int): ResetTokens {
    t[id := ResetToken(userId, hash, expiresAt, None)]
  }

  function MarkUsed(t: ResetTokens, id: Id, now: int): ResetTokens
    requires id in t
  {
    t[id := t[id].(usedAt := Some(now))]
  }

  function InvalidateAllForUser(t: ResetTokens, userId: Id, now: int): ResetTokens {
    map id | id in t ::
      if t[id].userId == userId && t[id].usedAt.None? then t[id].(usedAt := Some(now)) else t[id]
  }

  /** Marking a token makes it used at that instant and leaves the others alone. */
  lemma {:induction false} MarkUsedExact(t: ResetTokens, id: Id, now: int, k: Id)
    requires id in t && k in t
    ensures var t' := MarkUsed(t, id, now);
            t'.Keys == t.Keys && t'[k] == if k == id then t[k].(usedAt := Some(now)) else t[k]
  {
  }

  /** The row a raw token may still be redeemed for. */
  ghost function Redeemable(t: ResetTokens, hash: string, now: int): Option<Id> {
    match FindByHash(t, hash)
    case None => None
    case Some(id) => if t[id].usedAt.Some? || t[id].expiresAt < now then None else Some(id)
  }

  /** No row disappears, changes hands or lives longer, and a used token stays used. */
  ghost predicate ResetsEvolve(t: ResetTokens, t': ResetTokens) {
    forall id :: id in t ==>
      && id in t' && t'[id].userId == t[id].userId && t'[id].tokenHash == t[id].tokenHash
      && t'[id].expiresAt == t[id].expiresAt
      && (t[id].usedAt.Some? ==> t'[id].usedAt.Some?)
  }

  lemma {:induction false} ResetsEvolveTransitive(t: ResetTokens, t': ResetTokens, t'': ResetTokens)
    requires ResetsEvolve(t, t') && ResetsEvolve(t', t'')
    ensures ResetsEvolve(t, t'')
  {
  }

  /** Redeeming a token leaves its user with no usable token and every other user's as they were. */
  lemma {:induction false} RedeemEffect(t: ResetTokens, id: Id, now: int)
    requires id in t
    ensures var t' := InvalidateAllForUser(MarkUsed(t, id, now), t[id].userId, now);
            && ResetsEvolve(t, t') && t'.Keys == t.Keys
            && (forall k :: k in t && t[k].userId == t[id].userId ==> t'[k].usedAt.Some?)
            && (forall k :: k in t && t[k].userId != t[id].userId ==> t'[k] == t[k])
            && (UniqueHashes(t) ==> UniqueHashes(t'))
  {
    var t1 := MarkUsed(t, id, now);
    var t' := InvalidateAllForUser(t1, t[id].userId, now);
    assert t1.Keys == t.Keys && t'.Keys == t.Keys;
    assert forall k :: k in t ==> t1[k].tokenHash == t[k].tokenHash && t'[k].tokenHash == t[k].tokenHash;
  }

  /** A token whose row is used is not redeemable, now or in any later table. */
  lemma {:induction false} UsedForever(t: ResetTokens, t': ResetTokens, hash: string, id: Id, now: int)
    requires ResetsEvolve(t, t') && UniqueHashes(t') && HasHash(t, id, hash) && t[id].usedAt.Some?
    ensures Redeemable(t', hash, now).None?
  {
    assert HasHash(t', id, hash);
    assert FindByHash(t', hash).Some?;
  }
}
