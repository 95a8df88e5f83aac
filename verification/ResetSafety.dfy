/** Password-reset tokens over every trace. */
module ResetSafety {
  import opened TokenTable
  import opened Sessions
  import opened Accounts
  import opened SecondFactor
  import opened Resets
  import opened Auth
  import opened World
  import opened SessionSafety

  ghost predicate KeepsResets(t: ResetTokens, t': ResetTokens) {
    ResetsEvolve(t, t') && UniqueHashes(t')
  }

  lemma {:induction false} RequestKeeps(e: Env, s: Store, email: string, id: Id, raw: string, now: int)
    requires UniqueHashes(s.resets) && id !in s.resets
    requires FindByHash(s.resets, e.sessions.sha256(raw)).None?
    ensures KeepsResets(s.resets, RequestReset(e, s, email, id, raw, now).0.resets)
  {
    assert forall k :: k in s.resets && s.resets[k].tokenHash == e.sessions.sha256(raw) ==>
             HasHash(s.resets, k, e.sessions.sha256(raw));
  }

  lemma {:induction false} RedeemKeeps(e: Env, s: Store, raw: string, newHash: string, now: int)
    requires UniqueHashes(s.resets)
    ensures KeepsResets(s.resets, Reset(e, s, raw, newHash, now).0.resets)
  {
    hide RevokeAllForUser, SetPassword;
    var row := RedeemedRow(e, s, raw, now);
    if row.Some? {
      RedeemEffect(s.resets, row.value, now);
      hide UniqueHashes, InvalidateAllForUser, Resets.MarkUsed;
    }
  }

  lemma {:induction false} OtherResets(e: Env, w: World, c: Call)
    requires Admissible(e, w, c) && !c.request.ResetRequest? && !c.request.ResetRedeem?
    ensures Step(e, w, c).0.store.resets == w.store.resets
  {
    hide Drawn, Listed, Fresh, VerifyCode, Rotate, LoginCheck, Issue, RevokeAllForUser, Logout;
  }

  lemma {:induction false} StepResets(e: Env, w: World, c: Call)
    requires Admissible(e, w, c) && UniqueHashes(w.store.resets)
    ensures KeepsResets(w.store.resets, Step(e, w, c).0.store.resets)
  {
    hide Drawn, Listed, Fresh, Login, LoginSecondFactor, Refresh, RequestReset, Reset, EnableTwoFactor,
         DisableTwoFactor, UniqueHashes;
    match c.request
    case ResetRequest(email, id, raw) => RequestKeeps(e, w.store, email, id, raw, c.at);
    case ResetRedeem(raw, newHash) => RedeemKeeps(e, w.store, raw, newHash, c.at);
    case _ => OtherResets(e, w, c);
  }

  lemma {:induction false} TraceResets(e: Env, ws: seq<World>, cs: seq<Call>, i: nat, j: nat)
    requires Trace(e, ws, cs) && i <= j < |ws| && UniqueHashes(ws[i].store.resets)
    ensures KeepsResets(ws[i].store.resets, ws[j].store.resets)
    decreases j
  {
    hide Step, UniqueHashes, Admissible;
    if i == j {
    } else {
      TraceResets(e, ws, cs, i, j - 1);
      StepResets(e, ws[j - 1], cs[j - 1]);
      ResetsEvolveTransitive(ws[i].store.resets, ws[j - 1].store.resets, ws[j].store.resets);
    }
  }

  /** The call redeems a reset token of `u`. */
  ghost predicate Redeems(e: Env, w: World, c: Call, u: Id) {
    && Admissible(e, w, c) && c.request.ResetRedeem? && Step(e, w, c).1.Done?
    && w.store.resets[RedeemedRow(e, w.store, c.request.raw, c.at).value].userId == u
  }

  /** Redeeming sets the password, clears the lock, ends every session of the account, uses up all its
      reset tokens, and changes nothing that belongs to anyone else. */
  lemma {:induction false} RedeemEffects(e: Env, w: World, c: Call, u: Id)
    requires Redeems(e, w, c, u)
    ensures var s, s' := w.store, Step(e, w, c).0.store;
            && u in s.users
            && s'.users == s.users[u := Cleared(s.users[u]).(passwordHash := c.request.newHash)]
            && Sealed(s.tokens, s'.tokens, u)
            && s'.codes == s.codes
            && s'.resets.Keys == s.resets.Keys
            && (forall k :: k in s.resets && s.resets[k].userId == u ==> s'.resets[k].usedAt.Some?)
            && (forall k :: k in s.resets && s.resets[k].userId != u ==> s'.resets[k] == s.resets[k])
  {
    RevokeAllSeals(w.store.tokens, u, c.at);
    RedeemEffect(w.store.resets, RedeemedRow(e, w.store, c.request.raw, c.at).value, c.at);
    hide Sealed, RevokeAllForUser, InvalidateAllForUser, Resets.MarkUsed, UniqueHashes, ResetsEvolve,
         RedeemedRow;
  }

  /** Once a token of `u` has been redeemed, every token issued to `u` by then is refused in every
      later call; in particular each reset token succeeds at most once. */
  lemma {:induction false} RedeemedForever(e: Env, ws: seq<World>, cs: seq<Call>, i: nat, j: nat, u: Id, id: Id)
    requires Trace(e, ws, cs) && i < j < |cs| && UniqueHashes(ws[0].store.resets)
    requires Redeems(e, ws[i], cs[i], u) && cs[j].request.ResetRedeem?
    requires id in ws[i].store.resets && ws[i].store.resets[id].userId == u
    requires e.sessions.sha256(cs[j].request.raw) == ws[i].store.resets[id].tokenHash
    ensures AnswerAt(e, ws, cs, j) == Rejected(BadRequest)
  {
    var t, t1, tj := ws[i].store.resets, ws[i + 1].store.resets, ws[j].store.resets;
    var hash := e.sessions.sha256(cs[j].request.raw);
    RedeemEffects(e, ws[i], cs[i], u);
    assert t1[id].usedAt.Some?;
    hide Redeems, Admissible, UniqueHashes, Sealed;
    TraceResets(e, ws, cs, 0, i);
    TraceResets(e, ws, cs, 0, i + 1);
    TraceResets(e, ws, cs, i, i + 1);
    TraceResets(e, ws, cs, i + 1, j);
    UsedForever(t1, tj, hash, id, cs[j].at);
  }

  /** The row a successful call redeems was issued to its user, with the presented token's hash. */
  lemma {:induction false} RedeemedRowIs(e: Env, w: World, c: Call, u: Id)
    requires Redeems(e, w, c, u)
    ensures var row := RedeemedRow(e, w.store, c.request.raw, c.at);
            && row.Some? && HasHash(w.store.resets, row.value, e.sessions.sha256(c.request.raw))
            && w.store.resets[row.value].userId == u
            && w.store.resets[row.value].usedAt.None? && c.at <= w.store.resets[row.value].expiresAt
  {
    hide RevokeAllForUser, InvalidateAllForUser;
  }

  lemma {:induction false} RedeemsOnce(e: Env, ws: seq<World>, cs: seq<Call>, i: nat, j: nat, u: Id)
    requires Trace(e, ws, cs) && i < j < |cs| && UniqueHashes(ws[0].store.resets)
    requires Redeems(e, ws[i], cs[i], u) && cs[j].request.ResetRedeem?
    requires cs[j].request.raw == cs[i].request.raw
    ensures AnswerAt(e, ws, cs, j) == Rejected(BadRequest)
  {
    RedeemedRowIs(e, ws[i], cs[i], u);
    hide Redeems, Admissible, UniqueHashes, RedeemedRow, Step;
    RedeemedForever(e, ws, cs, i, j, u, RedeemedRow(e, ws[i].store, cs[i].request.raw, cs[i].at).value);
  }
}
