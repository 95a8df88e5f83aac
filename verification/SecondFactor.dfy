/** TOTP second factor and recovery codes: `two-factor.service.ts` and `two-factor.repository.ts` as
    functions on the users and recovery-code tables. The order in which the database returns rows is
    an argument. */
module SecondFactor {
  import opened Text
  import Base32
  import opened Totp
  import opened TokenTable
  import opened Accounts

  datatype RecoveryCode = RecoveryCode(userId: Id, codeHash: string, usedAt: Option<int>)

  type Codes = map<Id, RecoveryCode>

  datatype Factors = Factors(hmac: Hmac, argon2: Argon2)

  const RECOVERY_CODE_COUNT: nat := 10
  const WINDOW: nat := 1

  function Unused(codes: Codes, userId: Id): set<Id> {
    set id | id in codes && codes[id].userId == userId && codes[id].usedAt.None?
  }

  function Owned(codes: Codes, userId: Id): set<Id> {
    set id | id in codes && codes[id].userId == userId
  }

  function MarkUsed(codes: Codes, id: Id, now: int): Codes
    requires id in codes
  {
    codes[id := codes[id].(usedAt := Some(now))]
  }

  function DeleteAllForUser(codes: Codes, userId: Id): Codes {
    map id | id in codes && codes[id].userId != userId :: codes[id]
  }

  predicate NoRepeats(ids: seq<Id>) {
    forall i, j :: 0 <= i < j < |ids| ==> ids[i] != ids[j]
  }

  /** `order` lists exactly the ids of `s`, each once. */
  predicate Lists(order: seq<Id>, s: set<Id>) {
    NoRepeats(order) && (forall id :: id in order ==> id in s) && (forall id :: id in s ==> id in order)
  }

  /** The rows inserted for these ids. */
  function Inserted(userId: Id, ids: seq<Id>, hashes: seq<string>): Codes
    requires |ids| == |hashes| && NoRepeats(ids)
  {
    map i | 0 <= i < |ids| :: ids[i] := RecoveryCode(userId, hashes[i], None)
  }

  function ReplaceCodes(codes: Codes, userId: Id, ids: seq<Id>, hashes: seq<string>): Codes
    requires |ids| == |hashes| && NoRepeats(ids)
  {
    DeleteAllForUser(codes, userId) + Inserted(userId, ids, hashes)
  }

  // ----- verification --------------------------------------------------------

  datatype Scan = Found(id: Id) | NoneMatch | Threw

  /** The row at position `k` gives the verdict and every row before it differs. */
  predicate Decides(argon2: Argon2, codes: Codes, order: seq<Id>, candidate: string, k: nat, verdict: Verdict)
    requires forall id :: id in order ==> id in codes
    requires k < |order|
  {
    && argon2(codes[order[k]].codeHash, candidate) == verdict
    && forall i :: 0 <= i < k ==> argon2(codes[order[i]].codeHash, candidate) == Mismatch
  }

  /** The loop over the unused rows: the first that matches, unless argon2 throws before. */
  function FirstMatch(argon2: Argon2, codes: Codes, order: seq<Id>, candidate: string): (r: Scan)
    requires forall id :: id in order ==> id in codes
    ensures r.Found? ==>
              exists k :: 0 <= k < |order| && order[k] == r.id && Decides(argon2, codes, order, candidate, k, Match)
    ensures r.Threw? ==> exists k :: 0 <= k < |order| && Decides(argon2, codes, order, candidate, k, Throws)
    ensures r.NoneMatch? <==> forall id :: id in order ==> argon2(codes[id].codeHash, candidate) == Mismatch
  {
    if order == [] then NoneMatch
    else
      assert order[0] in order;
      assert forall id :: id in order <==> id == order[0] || id in order[1..];
      match argon2(codes[order[0]].codeHash, candidate)
      case Match => assert Decides(argon2, codes, order, candidate, 0, Match); Found(order[0])
      case Throws => assert Decides(argon2, codes, order, candidate, 0, Throws); Threw
      case Mismatch =>
        var r := FirstMatch(argon2, codes, order[1..], candidate);
        assert forall k, v :: 0 <= k < |order| - 1 && Decides(argon2, codes, order[1..], candidate, k, v) ==>
                 Decides(argon2, codes, order, candidate, k + 1, v);
        r
  }

  datatype Verification = ByTotp | ByRecovery(id: Id) | Denied | Failed

  predicate Accepted(v: Verification) {
    v.ByTotp? || v.ByRecovery?
  }

  function Consume(argon2: Argon2, codes: Codes, userId: Id, order: seq<Id>, candidate: string, now: int)
    : (Codes, Verification)
    requires Lists(order, Unused(codes, userId))
  {
    match FirstMatch(argon2, codes, order, candidate)
    case Found(id) => (MarkUsed(codes, id, now), ByRecovery(id))
    case NoneMatch => (codes, Denied)
    case Threw => (codes, Failed)
  }

  /** A stored secret counts only if it is not the empty string. */
  predicate HasSecret(u: User) {
    u.twoFactorSecret.Some? && u.twoFactorSecret.value != ""
  }

  function VerifyCode(
      f: Factors, codes: Codes, userId: Id, user: User, code: string, order: seq<Id>, now: int)
    : (Codes, Verification)
    requires Lists(order, Unused(codes, userId))
  {
    if !HasSecret(user) then (codes, Denied)
    else
      var normalized := Trim(code);
      var totp := if SixDigits(normalized)
                  then Verified(f.hmac, user.twoFactorSecret.value, normalized, WINDOW, now) else Ok(false);
      match totp
      case RangeError => (codes, Failed)
      case Ok(true) => (codes, ByTotp)
      case Ok(false) => Consume(f.argon2, codes, userId, order, Lower(normalized), now)
  }

  // ----- enrolment -----------------------------------------------------------

  datatype Enrolment = Enabled | NoUser | NoSecret | BadCode | NotEnabled | Disabled | Broken

  /** The rows drawn for ten new recovery codes. */
  predicate Fresh(codes: Codes, ids: seq<Id>, hashes: seq<string>) {
    && |ids| == |hashes| == RECOVERY_CODE_COUNT && NoRepeats(ids)
    && forall id :: id in ids ==> id !in codes
  }

  function Enable(
      f: Factors, users: Users, codes: Codes, userId: Id, code: string,
      ids: seq<Id>, hashes: seq<string>, now: int)
    : (Users, Codes, Enrolment)
    requires Fresh(codes, ids, hashes)
  {
    match FindById(users, userId)
    case None => (users, codes, NoUser)
    case Some(user) =>
      if !HasSecret(user) then (users, codes, NoSecret)
      else match Verified(f.hmac, user.twoFactorSecret.value, code, WINDOW, now)
        case RangeError => (users, codes, Broken)
        case Ok(false) => (users, codes, BadCode)
        case Ok(true) =>
          (SetTwoFactorEnabled(users, userId, true), ReplaceCodes(codes, userId, ids, hashes), Enabled)
  }

  function Disable(
      f: Factors, users: Users, codes: Codes, userId: Id, code: string, order: seq<Id>, now: int)
    : (Users, Codes, Enrolment, Verification)
    requires Lists(order, Unused(codes, userId))
  {
    match FindById(users, userId)
    case None => (users, codes, NoUser, Denied)
    case Some(user) =>
      if !user.twoFactorEnabled then (users, codes, NotEnabled, Denied)
      else
        var (codes', v) := VerifyCode(f, codes, userId, user, code, order, now);
        if v.Failed? then (users, codes', Broken, v)
        else if v.Denied? then (users, codes', BadCode, v)
        else (SetTwoFactorEnabled(users, userId, false), DeleteAllForUser(codes', userId), Disabled, v)
  }

  // ----- properties ----------------------------------------------------------

  lemma {:induction false} MarkUsedEffect(codes: Codes, userId: Id, id: Id, now: int, u: Id)
    requires id in Unused(codes, userId)
    ensures var codes' := MarkUsed(codes, id, now);
            && Unused(codes', userId) == Unused(codes, userId) - {id}
            && |Unused(codes', userId)| == |Unused(codes, userId)| - 1
            && (u != userId ==> Unused(codes', u) == Unused(codes, u))
            && Owned(codes', u) == Owned(codes, u)
  {
    assert Unused(MarkUsed(codes, id, now), userId) == Unused(codes, userId) - {id};
  }

  /** What one verification does to the recovery codes: an acceptance through a code takes exactly
      that code out of the unused ones, anything else changes nothing, and other users' codes are
      never touched. */
  lemma {:induction false} VerifyEffect(
      f: Factors, codes: Codes, userId: Id, user: User, code: string, order: seq<Id>, now: int, u: Id)
    requires Lists(order, Unused(codes, userId))
    ensures var (codes', v) := VerifyCode(f, codes, userId, user, code, order, now);
            && (!v.ByRecovery? ==> codes' == codes)
            && (v.ByRecovery? ==>
                  && v.id in Unused(codes, userId)
                  && f.argon2(codes[v.id].codeHash, Lower(Trim(code))) == Match
                  && Unused(codes', userId) == Unused(codes, userId) - {v.id}
                  && |Unused(codes', userId)| == |Unused(codes, userId)| - 1)
            && (u != userId ==> Unused(codes', u) == Unused(codes, u))
            && Owned(codes', u) == Owned(codes, u)
  {
    hide Verified, SixDigits, Trim, Lower;
    var (codes', v) := VerifyCode(f, codes, userId, user, code, order, now);
    if v.ByRecovery? {
      hide MarkUsed;
      MarkUsedEffect(codes, userId, v.id, now, u);
    }
  }

  lemma {:induction false} ScanExact(argon2: Argon2, codes: Codes, order: seq<Id>, candidate: string)
    requires forall id :: id in order ==> id in codes
    ensures FirstMatch(argon2, codes, order, candidate).Found?
            <==> exists k :: 0 <= k < |order| && Decides(argon2, codes, order, candidate, k, Match)
  {
    var r := FirstMatch(argon2, codes, order, candidate);
    hide FirstMatch;
    if k :| 0 <= k < |order| && Decides(argon2, codes, order, candidate, k, Match) {
      assert order[k] in order;
    }
  }

  /** When verification accepts: on a current TOTP code, or if the first unused recovery code that does
      not differ from the offered one, case and surrounding white space aside, matches it. A row on
      which argon2 throws before that prevents acceptance. */
  lemma {:induction false} VerifyAccepts(
      f: Factors, codes: Codes, userId: Id, user: User, code: string, order: seq<Id>, now: nat, c: int)
    requires Lists(order, Unused(codes, userId))
    requires InStep(now, c) && 1 <= c && c + 1 < COUNTERS
    ensures Accepted(VerifyCode(f, codes, userId, user, code, order, now).1)
            <==> user.twoFactorSecret.Some? && user.twoFactorSecret.value != ""
                 && (CodeInRange(f.hmac, Base32.Decoded(user.twoFactorSecret.value), Trim(code), c - 1, c + 1)
                     || exists k :: 0 <= k < |order|
                                    && Decides(f.argon2, codes, order, Lower(Trim(code)), k, Match))
  {
    if HasSecret(user) {
      VerifyExact(f.hmac, user.twoFactorSecret.value, Trim(code), WINDOW, now, c);
      VerifyEdges(f.hmac, user.twoFactorSecret.value, Trim(code), WINDOW, now);
      hide Verified, SixDigits, Trim, Lower, CodeInRange, MarkUsed, Decides, FirstMatch;
      ScanExact(f.argon2, codes, order, Lower(Trim(code)));
    }
  }

  /** How the scan over the unused rows ends: by the first row that does not differ, if there is one. */
  lemma {:induction false} ScanOutcome(argon2: Argon2, codes: Codes, order: seq<Id>, candidate: string, k: nat)
    requires forall id :: id in order ==> id in codes
    ensures var r := FirstMatch(argon2, codes, order, candidate);
            && (k < |order| && Decides(argon2, codes, order, candidate, k, Match) ==> r == Found(order[k]))
            && (k < |order| && Decides(argon2, codes, order, candidate, k, Throws) ==> r == Threw)
            && ((forall id :: id in order ==> argon2(codes[id].codeHash, candidate) == Mismatch) ==> r == NoneMatch)
  {
    var r := FirstMatch(argon2, codes, order, candidate);
    hide FirstMatch;
    if k < |order| {
      assert order[k] in order;
    }
  }

  /** Every outcome of verification. Without a secret it is denied. A six-digit text is tried as a TOTP code
      first: a matching one is accepted, and an instant too early for the window fails. Otherwise the
      first unused recovery code that does not differ decides: a match accepts and consumes that row, a
      throwing argon2 fails; if all differ, the text is denied. */
  lemma {:induction false} VerifyOutcome(
      f: Factors, codes: Codes, userId: Id, user: User, code: string, order: seq<Id>, now: int, k: nat)
    requires Lists(order, Unused(codes, userId))
    ensures var (codes', v) := VerifyCode(f, codes, userId, user, code, order, now);
            var text := Trim(code);
            if user.twoFactorSecret.None? || user.twoFactorSecret.value == "" then v == Denied && codes' == codes
            else
              var totp := if SixDigits(text) then Verified(f.hmac, user.twoFactorSecret.value, text, 1, now)
                          else Ok(false);
              && (totp == RangeError ==> v == Failed && codes' == codes)
              && (totp == Ok(true) ==> v == ByTotp && codes' == codes)
              && (totp == Ok(false) ==>
                    && (k < |order| && Decides(f.argon2, codes, order, Lower(text), k, Match) ==>
                          v == ByRecovery(order[k])
                          && codes' == codes[order[k] := codes[order[k]].(usedAt := Some(now))])
                    && (k < |order| && Decides(f.argon2, codes, order, Lower(text), k, Throws) ==>
                          v == Failed && codes' == codes)
                    && ((forall id :: id in order ==> f.argon2(codes[id].codeHash, Lower(text)) == Mismatch) ==>
                          v == Denied && codes' == codes))
  {
    hide Verified, SixDigits, Trim, Lower, Decides;
    ScanOutcome(f.argon2, codes, order, Lower(Trim(code)), k);
    hide FirstMatch;
    if k < |order| {
      assert order[k] in order;
    }
  }

  /** If argon2 throws on none of the unused rows, their order does not matter: any match will do. */
  lemma {:induction false} VerifyAcceptsAny(
      f: Factors, codes: Codes, userId: Id, user: User, code: string, order: seq<Id>, now: nat, c: int)
    requires Lists(order, Unused(codes, userId))
    requires InStep(now, c) && 1 <= c && c + 1 < COUNTERS
    requires forall id :: id in order ==> f.argon2(codes[id].codeHash, Lower(Trim(code))) != Throws
    ensures Accepted(VerifyCode(f, codes, userId, user, code, order, now).1)
            <==> user.twoFactorSecret.Some? && user.twoFactorSecret.value != ""
                 && (CodeInRange(f.hmac, Base32.Decoded(user.twoFactorSecret.value), Trim(code), c - 1, c + 1)
                     || exists id :: id in Unused(codes, userId)
                                     && f.argon2(codes[id].codeHash, Lower(Trim(code))) == Match)
  {
    VerifyAccepts(f, codes, userId, user, code, order, now, c);
    hide VerifyCode, Trim, Lower, CodeInRange, HasSecret, Unused, FirstMatch;
    var r := FirstMatch(f.argon2, codes, order, Lower(Trim(code)));
    if k :| 0 <= k < |order| && Decides(f.argon2, codes, order, Lower(Trim(code)), k, Match) {
      assert order[k] in Unused(codes, userId);
    }
  }

  /** Writing a recovery code in another case, between white space, changes nothing. */
  lemma {:induction false} NormalizedCode(pre: string, code: string, post: string, written: string)
    requires AllSpaces(pre) && AllSpaces(post) && EdgesClean(written)
    requires Lower(written) == Lower(code)
    ensures Lower(Trim(pre + written + post)) == Lower(code)
  {
    TrimPadded(pre, written, post);
  }

  lemma {:induction false} ListedCount(ids: seq<Id>, s: set<Id>)
    requires NoRepeats(ids)
    requires forall id :: id in s <==> id in ids
    ensures |s| == |ids|
    decreases |ids|
  {
    if ids == [] {
      assert s == {};
    } else {
      assert ids[0] in s;
      assert ids == [ids[0]] + ids[1..];
      assert ids[0] !in ids[1..];
      forall id
        ensures id in s - {ids[0]} <==> id in ids[1..]
      {
      }
      ListedCount(ids[1..], s - {ids[0]});
    }
  }

  /** Replacing leaves the user exactly the ten new codes, all unused, and the others theirs. */
  lemma {:induction false} ReplaceEffect(codes: Codes, userId: Id, ids: seq<Id>, hashes: seq<string>, u: Id)
    requires Fresh(codes, ids, hashes)
    ensures var codes' := ReplaceCodes(codes, userId, ids, hashes);
            && |Owned(codes', userId)| == |Unused(codes', userId)| == 10
            && (forall id :: id in Unused(codes', userId) <==> id in ids)
            && (forall i :: 0 <= i < |ids| ==>
                  ids[i] in codes' && codes'[ids[i]] == RecoveryCode(userId, hashes[i], None))
            && (u != userId ==> Owned(codes', u) == Owned(codes, u) && Unused(codes', u) == Unused(codes, u))
  {
    var codes' := ReplaceCodes(codes, userId, ids, hashes);
    assert forall id :: id in Unused(codes', userId) <==> id in ids;
    assert forall id :: id in Owned(codes', userId) <==> id in ids;
    ListedCount(ids, Unused(codes', userId));
    ListedCount(ids, Owned(codes', userId));
    if u != userId {
      forall id
        ensures id in Owned(codes', u) <==> id in Owned(codes, u)
        ensures id in Unused(codes', u) <==> id in Unused(codes, u)
      {
      }
    }
  }

  lemma {:induction false} DeleteEffect(codes: Codes, userId: Id, u: Id)
    ensures var codes' := DeleteAllForUser(codes, userId);
            if u == userId then Owned(codes', u) == {}
            else Owned(codes', u) == Owned(codes, u) && Unused(codes', u) == Unused(codes, u)
  {
  }
}
