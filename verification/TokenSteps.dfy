/** Refresh-token requests at the granularity of single repository calls. Each request is a process;
    an event is the next repository call of some process, so event lists are exactly the
    interleavings, and a process that gets no further event is a request abandoned midway. */
module TokenSteps {
  import opened Text
  import opened TokenTable
  import opened Sessions

  /** What a request still has to do; finished requests are not listed. */
  datatype Process =
    | Checked(id: Id, userId: Id)    // rotate: token accepted, successor row not created yet
    | Created(id: Id, newId: Id)     // rotate: successor created, old row not linked yet
    | Replayed(userId: Id)           // rotate: revoked token seen, sessions not revoked yet
    | Leaving(id: Id)                // logout: active row found, not revoked yet

  datatype System = System(rows: Table, processes: map<nat, Process>)

  datatype Event =
    | RotateFind(pid: nat, raw: string)
    | RotateCreate(pid: nat, grant: Grant)
    | RotateLink(pid: nat)
    | ReplayRevokeAll(pid: nat)
    | LogoutFind(pid: nat, raw: string)
    | LogoutRevoke(pid: nat)
    | IssueCreate(user: Id, grant: Grant)
    | RevokeAll(user: Id)

  function Finish(s: System, pid: nat): map<nat, Process> {
    s.processes - {pid}
  }

  /** One repository call at instant `now`; an event that does not fit its process does nothing. */
  function Step(c: Config, s: System, e: Event, now: int): System {
    match e
    case RotateFind(pid, raw) =>
      if pid in s.processes then s
      else (match Check(c, s.rows, raw, now)
            case None =>
              var id := Parse(raw).value.id;
              s.(processes := s.processes[pid := Checked(id, s.rows[id].userId)])
            case Some(Reused) =>
              s.(processes := s.processes[pid := Replayed(s.rows[Parse(raw).value.id].userId)])
            case Some(_) => s)
    case RotateCreate(pid, g) =>
      if pid in s.processes && s.processes[pid].Checked? && Drawn(s.rows, g) then
        var p := s.processes[pid];
        System(Issue(c, s.rows, p.userId, g, now), s.processes[pid := Created(p.id, g.id)])
      else s
    case RotateLink(pid) =>
      if pid in s.processes && s.processes[pid].Created? && s.processes[pid].id in s.rows then
        var p := s.processes[pid];
        System(Revoke(s.rows, p.id, Some(p.newId), now), Finish(s, pid))
      else s
    case ReplayRevokeAll(pid) =>
      if pid in s.processes && s.processes[pid].Replayed? then
        System(RevokeAllForUser(s.rows, s.processes[pid].userId, now), Finish(s, pid))
      else s
    case LogoutFind(pid, raw) =>
      if pid !in s.processes && Parse(raw).Some? && Parse(raw).value.id in s.rows
         && s.rows[Parse(raw).value.id].revokedAt.None?
      then s.(processes := s.processes[pid := Leaving(Parse(raw).value.id)])
      else s
    case LogoutRevoke(pid) =>
      if pid in s.processes && s.processes[pid].Leaving? && s.processes[pid].id in s.rows then
        System(Revoke(s.rows, s.processes[pid].id, None, now), Finish(s, pid))
      else s
    case IssueCreate(user, g) =>
      if Drawn(s.rows, g) then s.(rows := Issue(c, s.rows, user, g, now)) else s
    case RevokeAll(user) => s.(rows := RevokeAllForUser(s.rows, user, now))
  }

  function Run(c: Config, s: System, events: seq<(Event, int)>): System
    decreases |events|
  {
    if events == [] then s else Run(c, Step(c, s, events[0].0, events[0].1), events[1..])
  }

  // ----- the invariant -------------------------------------------------------

  ghost predicate ProcessOk(t: Table, p: Process) {
    match p
    case Checked(id, userId) => id in t && t[id].userId == userId
    case Created(id, newId) => id in t && LinkAllowed(t, id, Some(newId))
    case Replayed(_) => true
    case Leaving(id) => id in t
  }

  /** No successor row is about to be linked twice. */
  ghost predicate Distinct(ps: map<nat, Process>) {
    forall p, q ::
      p in ps && q in ps && ps[p].Created? && ps[q].Created? && ps[p].newId == ps[q].newId ==> p == q
  }

  ghost predicate Inv(s: System) {
    && WellLinked(s.rows)
    && (forall pid :: pid in s.processes ==> ProcessOk(s.rows, s.processes[pid]))
    && Distinct(s.processes)
  }

  /** A step of one process does not invalidate what the others wait to do. */
  lemma {:induction false} CreateKeepsProcess(c: Config, t: Table, user: Id, g: Grant, now: int, p: Process)
    requires WellLinked(t) && Drawn(t, g) && ProcessOk(t, p)
    ensures ProcessOk(Issue(c, t, user, g, now), p)
    ensures p.Created? ==> p.newId != g.id
  {
  }

  lemma {:induction false} RevokeKeepsUnlinked(t: Table, id: Id, link: Option<Id>, now: int, n: Id)
    requires id in t && !HasPredecessor(t, n) && link != Some(n)
    ensures !HasPredecessor(Revoke(t, id, link, now), n)
  {
  }

  lemma {:induction false} RevokeKeepsProcess(t: Table, id: Id, link: Option<Id>, now: int, p: Process)
    requires id in t && ProcessOk(t, p)
    requires p.Created? ==> link != Some(p.newId)
    ensures ProcessOk(Revoke(t, id, link, now), p)
  {
    if p.Created? {
      RevokeKeepsUnlinked(t, id, link, now, p.newId);
      hide HasPredecessor;
    }
  }

  lemma {:induction false} RevokeAllKeepsProcess(t: Table, user: Id, now: int, p: Process)
    requires ProcessOk(t, p)
    ensures ProcessOk(RevokeAllForUser(t, user, now), p)
  {
  }

  lemma {:induction false} CreateStep(c: Config, s: System, pid: nat, g: Grant, now: int)
    requires Inv(s) && pid in s.processes && s.processes[pid].Checked? && Drawn(s.rows, g)
    ensures var s' := Step(c, s, RotateCreate(pid, g), now); Inv(s') && Evolves(s.rows, s'.rows)
  {
    hide WellLinked, Evolves, LinkAllowed, Drawn;
    var p := s.processes[pid];
    assert ProcessOk(s.rows, p);
    var t' := Issue(c, s.rows, p.userId, g, now);
    IssueKeeps(c, s.rows, p.userId, g, now);
    SwapAllowed(c, s.rows, p.id, g, now);
    var s' := Step(c, s, RotateCreate(pid, g), now);
    assert p.id in t';
    forall q | q in s.processes
      ensures ProcessOk(t', s.processes[q])
      ensures s.processes[q].Created? ==> s.processes[q].newId != g.id
    {
      CreateKeepsProcess(c, s.rows, p.userId, g, now, s.processes[q]);
    }
    hide Issue;
    assert forall q :: q in s'.processes ==> q == pid || s'.processes[q] == s.processes[q];
  }

  lemma {:induction false} RevokeStep(s: System, pid: nat, id: Id, link: Option<Id>, now: int)
    requires Inv(s) && pid in s.processes && id in s.rows && LinkAllowed(s.rows, id, link)
    requires link.Some? ==> s.processes[pid].Created? && s.processes[pid].newId == link.value
    ensures var s' := System(Revoke(s.rows, id, link, now), Finish(s, pid));
            Inv(s') && Evolves(s.rows, s'.rows)
  {
    RevokeKeeps(s.rows, id, link, now);
    var t' := Revoke(s.rows, id, link, now);
    forall q | q in s.processes && q != pid
      ensures ProcessOk(t', s.processes[q])
    {
      RevokeKeepsProcess(s.rows, id, link, now, s.processes[q]);
    }
    hide WellLinked, Evolves, LinkAllowed, Revoke, ProcessOk;
  }

  lemma {:induction false} RevokeAllStep(s: System, user: Id, now: int, left: map<nat, Process>)
    requires Inv(s) && forall q :: q in left ==> q in s.processes && left[q] == s.processes[q]
    ensures var s' := System(RevokeAllForUser(s.rows, user, now), left);
            Inv(s') && Evolves(s.rows, s'.rows)
  {
    RevokeAllKeeps(s.rows, user, now);
    var t' := RevokeAllForUser(s.rows, user, now);
    forall q | q in s.processes
      ensures ProcessOk(t', s.processes[q])
    {
      RevokeAllKeepsProcess(s.rows, user, now, s.processes[q]);
    }
    hide WellLinked, Evolves, RevokeAllForUser, ProcessOk;
  }

  lemma {:induction false} IssueStep(c: Config, s: System, user: Id, g: Grant, now: int)
    requires Inv(s) && Drawn(s.rows, g)
    ensures var s' := s.(rows := Issue(c, s.rows, user, g, now)); Inv(s') && Evolves(s.rows, s'.rows)
  {
    IssueKeeps(c, s.rows, user, g, now);
    var t' := Issue(c, s.rows, user, g, now);
    forall q | q in s.processes
      ensures ProcessOk(t', s.processes[q])
    {
      CreateKeepsProcess(c, s.rows, user, g, now, s.processes[q]);
    }
    hide WellLinked, Evolves, Issue, ProcessOk;
  }

  /** A read changes no row; it only records what the request found. */
  lemma {:induction false} ReadStep(s: System, pid: nat, p: Process)
    requires Inv(s) && pid !in s.processes && ProcessOk(s.rows, p) && !p.Created?
    ensures Inv(s.(processes := s.processes[pid := p]))
  {
    hide WellLinked, ProcessOk;
  }

  lemma {:induction false} StepKeeps(c: Config, s: System, e: Event, now: int)
    requires Inv(s)
    ensures var s' := Step(c, s, e, now); Inv(s') && Evolves(s.rows, s'.rows)
  {
    EvolvesReflexive(s.rows);
    hide WellLinked, Evolves, Issue, Revoke, RevokeAllForUser, Drawn, Distinct;
    var s' := Step(c, s, e, now);
    if s' != s {
      match e
      case RotateFind(pid, raw) => ReadStep(s, pid, s'.processes[pid]);
      case RotateCreate(pid, g) => CreateStep(c, s, pid, g, now);
      case RotateLink(pid) =>
        assert ProcessOk(s.rows, s.processes[pid]);
        RevokeStep(s, pid, s.processes[pid].id, Some(s.processes[pid].newId), now);
      case ReplayRevokeAll(pid) => RevokeAllStep(s, s.processes[pid].userId, now, Finish(s, pid));
      case LogoutFind(pid, raw) => ReadStep(s, pid, s'.processes[pid]);
      case LogoutRevoke(pid) => RevokeStep(s, pid, s.processes[pid].id, None, now);
      case IssueCreate(user, g) => IssueStep(c, s, user, g, now);
      case RevokeAll(user) => RevokeAllStep(s, user, now, s.processes);
    }
  }

  // ----- every interleaving --------------------------------------------------

  lemma {:induction false} RunKeeps(c: Config, s: System, events: seq<(Event, int)>)
    requires Inv(s)
    ensures Inv(Run(c, s, events)) && Evolves(s.rows, Run(c, s, events).rows)
    decreases |events|
  {
    if events == [] {
      EvolvesReflexive(s.rows);
    } else {
      var s' := Step(c, s, events[0].0, events[0].1);
      StepKeeps(c, s, events[0].0, events[0].1);
      RunKeeps(c, s', events[1..]);
      EvolvesTransitive(s.rows, s'.rows, Run(c, s, events).rows);
    }
  }

  const EMPTY: System := System(map[], map[])

  /** Under every interleaving of repository calls, with any requests abandoned midway, the links
      form disjoint paths. */
  lemma {:induction false} InterleavingsFormPaths(c: Config, events: seq<(Event, int)>)
    ensures DisjointPaths(Run(c, EMPTY, events).rows)
  {
    RunKeeps(c, EMPTY, events);
    LinksFormPaths(Run(c, EMPTY, events).rows);
  }

  /** Once a row is revoked, no rotation that reads it afterwards is accepted, however the requests
      interleave: acceptance of one token twice needs both reads to precede the first revocation. */
  lemma {:induction false} ReadAfterRevocation(
      c: Config, s: System, events: seq<(Event, int)>, pid: nat, raw: string, now: int)
    requires Inv(s) && Parse(raw).Some?
    requires Parse(raw).value.id in s.rows && s.rows[Parse(raw).value.id].revokedAt.Some?
    ensures var s1 := Run(c, s, events);
            var s2 := Step(c, s1, RotateFind(pid, raw), now);
            && s2.rows == s1.rows
            && (pid !in s1.processes ==>
                  s2.processes == s1.processes[pid := Replayed(s.rows[Parse(raw).value.id].userId)])
  {
    RunKeeps(c, s, events);
    var id := Parse(raw).value.id;
    assert RowEvolves(s.rows[id], Run(c, s, events).rows[id]);
  }

  // ----- rotating one token twice --------------------------------------------

  lemma {:induction false} RunConcat(c: Config, s: System, a: seq<(Event, int)>, b: seq<(Event, int)>)
    ensures Run(c, s, a + b) == Run(c, Run(c, s, a), b)
    decreases |a|
  {
    hide Step;
    if a == [] {
      assert a + b == b;
    } else {
      assert (a + b)[1..] == a[1..] + b;
      RunConcat(c, Step(c, s, a[0].0, a[0].1), a[1..], b);
    }
  }

  /** Event `k` is the read with which a rotation of row `id` is accepted. */
  predicate Accepts(c: Config, s: System, events: seq<(Event, int)>, k: nat, id: Id)
    requires k < |events|
  {
    && events[k].0.RotateFind?
    && var before, after := Run(c, s, events[..k]), Run(c, s, events[..k + 1]);
       var pid := events[k].0.pid;
       pid !in before.processes && pid in after.processes
       && after.processes[pid].Checked? && after.processes[pid].id == id
  }

  lemma {:induction false} AcceptedRead(c: Config, s: System, pid: nat, raw: string, now: int, id: Id)
    requires pid !in s.processes
    requires var s' := Step(c, s, RotateFind(pid, raw), now);
             pid in s'.processes && s'.processes[pid].Checked? && s'.processes[pid].id == id
    ensures id in s.rows && s.rows[id].revokedAt.None?
  {
  }

  lemma {:induction false} RunOne(c: Config, s: System, a: (Event, int))
    ensures Run(c, s, [a]) == Step(c, s, a.0, a.1)
  {
    hide Step;
    assert Run(c, s, [a]) == Run(c, Step(c, s, a.0, a.1), [a][1..]);
  }

  lemma {:induction false} RunPrefix(c: Config, s: System, events: seq<(Event, int)>, k: nat)
    requires k < |events|
    ensures Run(c, s, events[..k + 1]) == Step(c, Run(c, s, events[..k]), events[k].0, events[k].1)
  {
    assert events[..k + 1] == events[..k] + [events[k]];
    RunConcat(c, s, events[..k], [events[k]]);
    RunOne(c, Run(c, s, events[..k]), events[k]);
  }

  /** Under every interleaving: whatever rotations of a row are accepted, however many, all read it before
      its first revocation. */
  lemma {:induction false} AcceptedBeforeRevocation(
      c: Config, s: System, events: seq<(Event, int)>, k: nat, r: nat, id: Id)
    requires Inv(s) && k < |events| && r <= |events| && Accepts(c, s, events, k, id)
    requires id in Run(c, s, events[..r]).rows && Run(c, s, events[..r]).rows[id].revokedAt.Some?
    ensures k < r
  {
    hide Inv, Evolves, Step;
    RunPrefix(c, s, events, k);
    AcceptedRead(c, Run(c, s, events[..k]), events[k].0.pid, events[k].0.raw, events[k].1, id);
    if r <= k {
      assert events[..k] == events[..r] + events[r..k];
      RunConcat(c, s, events[..r], events[r..k]);
      RunKeeps(c, s, events[..r]);
      RunKeeps(c, Run(c, s, events[..r]), events[r..k]);
      RowStays(Run(c, s, events[..r]).rows, Run(c, s, events[..k]).rows, id);
    }
  }

  /** Three different grants that an empty table can draw. */
  predicate Apart(g0: Grant, g1: Grant, g2: Grant) {
    Drawn(map[], g0) && Drawn(map[], g1) && Drawn(map[], g2)
    && g0.id != g1.id && g0.id != g2.id && g1.id != g2.id
  }

  /** A session of `u` starts and two requests rotate its one token, each reading before the other
      writes. */
  function RacedRotations(u: Id, g0: Grant, g1: Grant, g2: Grant, now: int): seq<(Event, int)> {
    [(IssueCreate(u, g0), now),
     (RotateFind(0, RawToken(g0)), now), (RotateFind(1, RawToken(g0)), now),
     (RotateCreate(0, g1), now), (RotateCreate(1, g2), now),
     (RotateLink(0), now), (RotateLink(1), now)]
  }

  /** The row created `n`-th for a grant. */
  function NthRow(c: Config, u: Id, g: Grant, n: nat, now: int): RefreshToken {
    RefreshToken(u, c.sha256(g.secret), now + c.ttl, None, None, n)
  }

  /** One session, read by two rotations. */
  function BothRead(c: Config, u: Id, g: Grant, now: int): System {
    System(map[g.id := NthRow(c, u, g, 0, now)], map[0 := Checked(g.id, u), 1 := Checked(g.id, u)])
  }

  /** Both rotations have created their successor rows. */
  function BothCreated(c: Config, u: Id, g0: Grant, g1: Grant, g2: Grant, now: int): System {
    System(map[g0.id := NthRow(c, u, g0, 0, now), g1.id := NthRow(c, u, g1, 1, now), g2.id := NthRow(c, u, g2, 2, now)],
           map[0 := Created(g0.id, g1.id), 1 := Created(g0.id, g2.id)])
  }

  lemma {:induction false} IssuedThenRead(c: Config, u: Id, g: Grant, now: int)
    requires c.ttl >= 0 && Drawn(map[], g)
    ensures var s1 := Step(c, EMPTY, IssueCreate(u, g), now);
            var s2 := Step(c, s1, RotateFind(0, RawToken(g)), now);
            && s2.processes == map[0 := Checked(g.id, u)]
            && Step(c, s2, RotateFind(1, RawToken(g)), now) == BothRead(c, u, g, now)
  {
    ParseRaw(map[], g);
    hide Parse, RawToken;
  }

  lemma {:induction false} CreateNext(c: Config, s: System, pid: nat, id: Id, u: Id, g: Grant, now: int)
    requires pid in s.processes && s.processes[pid] == Checked(id, u) && Drawn(s.rows, g)
    ensures Step(c, s, RotateCreate(pid, g), now)
         == System(s.rows[g.id := NthRow(c, u, g, |s.rows|, now)], s.processes[pid := Created(id, g.id)])
  {
  }

  lemma {:induction false} CreateBoth(c: Config, u: Id, g0: Grant, g1: Grant, g2: Grant, now: int)
    requires Apart(g0, g1, g2)
    ensures Step(c, Step(c, BothRead(c, u, g0, now), RotateCreate(0, g1), now), RotateCreate(1, g2), now)
         == BothCreated(c, u, g0, g1, g2, now)
  {
    hide Step;
    var s3 := BothRead(c, u, g0, now);
    CreateNext(c, s3, 0, g0.id, u, g1, now);
    CreateNext(c, Step(c, s3, RotateCreate(0, g1), now), 1, g0.id, u, g2, now);
  }

  lemma {:induction false} LinkBoth(c: Config, s: System, u: Id, id: Id, a: Id, b: Id, now: int)
    requires s.processes == map[0 := Created(id, a), 1 := Created(id, b)]
    requires s.rows.Keys == {id, a, b} && id != a && id != b
    requires s.rows[a].userId == s.rows[b].userId == u
    requires s.rows[a].revokedAt.None? && s.rows[b].revokedAt.None?
    ensures var s' := Step(c, Step(c, s, RotateLink(0), now), RotateLink(1), now);
            s'.processes == map[] && Active(s'.rows, u) == {a, b}
  {
  }

  lemma {:induction false} LinkRaced(c: Config, u: Id, g0: Grant, g1: Grant, g2: Grant, now: int)
    requires Apart(g0, g1, g2)
    ensures var s := Step(c, Step(c, BothCreated(c, u, g0, g1, g2, now), RotateLink(0), now), RotateLink(1), now);
            s.processes == map[] && Active(s.rows, u) == {g1.id, g2.id}
  {
    hide Step;
    LinkBoth(c, BothCreated(c, u, g0, g1, g2, now), u, g0.id, g1.id, g2.id, now);
  }

  lemma {:induction false} RunTwo(c: Config, s: System, a: (Event, int), b: (Event, int))
    ensures Run(c, s, [a, b]) == Step(c, Step(c, s, a.0, a.1), b.0, b.1)
  {
    hide Step;
    assert [a, b][1..] == [b];
    RunOne(c, Step(c, s, a.0, a.1), b);
  }

  lemma {:induction false} RunThree(c: Config, s: System, a: (Event, int), b: (Event, int), d: (Event, int))
    ensures Run(c, s, [a, b, d]) == Step(c, Step(c, Step(c, s, a.0, a.1), b.0, b.1), d.0, d.1)
  {
    hide Step;
    assert [a, b, d][1..] == [b, d];
    RunTwo(c, Step(c, s, a.0, a.1), b, d);
  }

  /** The race is real: the single token is accepted twice and its user ends with two active sessions,
      which no run of whole requests allows. */
  lemma {:induction false} RaceDoubles(c: Config, u: Id, g0: Grant, g1: Grant, g2: Grant, now: int)
    requires c.ttl >= 0 && Apart(g0, g1, g2)
    ensures var s := Run(c, EMPTY, RacedRotations(u, g0, g1, g2, now));
            s.processes == map[] && Active(s.rows, u) == {g1.id, g2.id}
  {
    hide Step, RawToken, BothRead, BothCreated, Active, Drawn;
    var es, s3, s5 := RacedRotations(u, g0, g1, g2, now), BothRead(c, u, g0, now), BothCreated(c, u, g0, g1, g2, now);
    assert Run(c, EMPTY, es[..3]) == s3 by {
      IssuedThenRead(c, u, g0, now);
      assert es[..3] == [es[0], es[1], es[2]];
      RunThree(c, EMPTY, es[0], es[1], es[2]);
    }
    assert Run(c, s3, es[3..5]) == s5 by {
      CreateBoth(c, u, g0, g1, g2, now);
      assert es[3..5] == [es[3], es[4]];
      RunTwo(c, s3, es[3], es[4]);
    }
    LinkRaced(c, u, g0, g1, g2, now);
    assert es[5..] == [es[5], es[6]];
    RunTwo(c, s5, es[5], es[6]);
    hide RacedRotations;
    assert es == es[..3] + es[3..5] + es[5..];
    RunConcat(c, EMPTY, es[..3] + es[3..5], es[5..]);
    RunConcat(c, EMPTY, es[..3], es[3..5]);
  }

  // ----- cutting a user off --------------------------------------------------

  /** Some rotation for `u` has been accepted and has not created its successor row yet. */
  ghost predicate Pending(s: System, u: Id) {
    exists pid :: pid in s.processes && s.processes[pid].Checked? && s.processes[pid].userId == u
  }

  /** No session is started for `u` from outside. */
  ghost predicate NoIssue(events: seq<(Event, int)>, u: Id) {
    forall i :: 0 <= i < |events| ==> !(events[i].0.IssueCreate? && events[i].0.user == u)
  }

  lemma {:induction false} RevokeActive(t: Table, id: Id, link: Option<Id>, now: int, u: Id)
    requires id in t && Active(t, u) == {}
    ensures Active(Revoke(t, id, link, now), u) == {}
  {
    forall k | k in Revoke(t, id, link, now) && t[k].userId == u
      ensures Revoke(t, id, link, now)[k].revokedAt.Some?
    {
      assert k !in Active(t, u);
    }
  }

  lemma {:induction false} CutRows(c: Config, s: System, e: Event, now: int, u: Id)
    requires Active(s.rows, u) == {} && !Pending(s, u) && !(e.IssueCreate? && e.user == u)
    ensures Active(Step(c, s, e, now).rows, u) == {}
  {
    hide Parse, Drawn, Issue, Revoke, RevokeAllForUser, Active;
    var s', t := Step(c, s, e, now), s.rows;
    if s' != s {
      match e
      case RotateFind(_, _) =>
      case RotateCreate(pid, g) => IssueCounts(c, t, s.processes[pid].userId, g, now, u);
      case RotateLink(pid) => RevokeActive(t, s.processes[pid].id, Some(s.processes[pid].newId), now, u);
      case ReplayRevokeAll(pid) => RevokeAllCounts(t, s.processes[pid].userId, now, u);
      case LogoutFind(_, _) =>
      case LogoutRevoke(pid) => RevokeActive(t, s.processes[pid].id, None, now, u);
      case IssueCreate(v, g) => IssueCounts(c, t, v, g, now, u);
      case RevokeAll(v) => RevokeAllCounts(t, v, now, u);
    }
  }

  lemma {:induction false} CutProcesses(c: Config, s: System, e: Event, now: int, u: Id)
    requires Active(s.rows, u) == {} && !Pending(s, u)
    ensures !Pending(Step(c, s, e, now), u)
  {
    hide Parse, Drawn, Issue, Revoke, RevokeAllForUser;
    var s' := Step(c, s, e, now);
    forall pid | pid in s'.processes && s'.processes[pid].Checked?
      ensures s'.processes[pid].userId != u
    {
      if pid !in s.processes || s.processes[pid] != s'.processes[pid] {
        assert e.RotateFind? && Parse(e.raw).value.id !in Active(s.rows, u);
      }
    }
  }

  /** Without active rows of `u` no rotation for `u` is accepted, and without an accepted one none gets
      active rows. */
  lemma {:induction false} CutStep(c: Config, s: System, e: Event, now: int, u: Id)
    requires Active(s.rows, u) == {} && !Pending(s, u) && !(e.IssueCreate? && e.user == u)
    ensures var s' := Step(c, s, e, now); Active(s'.rows, u) == {} && !Pending(s', u)
  {
    hide Step, Active, Pending;
    CutRows(c, s, e, now, u);
    CutProcesses(c, s, e, now, u);
  }

  lemma {:induction false} CutRun(c: Config, s: System, events: seq<(Event, int)>, u: Id)
    requires Active(s.rows, u) == {} && !Pending(s, u) && NoIssue(events, u)
    ensures Active(Run(c, s, events).rows, u) == {}
    decreases |events|
  {
    if events == [] {
    } else {
      hide Step, Active, Pending;
      CutStep(c, s, events[0].0, events[0].1, u);
      CutRun(c, Step(c, s, events[0].0, events[0].1), events[1..], u);
    }
  }

  lemma {:induction false} LengthBound(keys: set<Id>) returns (n: nat)
    ensures forall k :: k in keys ==> |k| <= n
  {
    if keys == {} {
      n := 0;
    } else {
      var k :| k in keys;
      n := LengthBound(keys - {k});
      n := if n < |k| then |k| else n;
    }
  }

  /** There is always an unused id left to draw. */
  lemma {:induction false} SomeGrant(t: Table) returns (g: Grant)
    ensures Drawn(t, g)
  {
    var n := LengthBound(t.Keys);
    g := Grant(seq(n + 1, _ => 'a'), "s");
    assert RowId(g.id) == g.id;
  }

  lemma {:induction false} PendingRevives(c: Config, s: System, pid: nat, g: Grant, now: int, u: Id)
    requires pid in s.processes && s.processes[pid].Checked? && s.processes[pid].userId == u && Drawn(s.rows, g)
    ensures g.id in Active(Step(c, s, RotateCreate(pid, g), now).rows, u)
  {
  }

  /** Revoking everything cuts a user off for good, under every later interleaving in which no session
      is started for it, if and only if no accepted rotation of the user is still to create its row. */
  lemma {:induction false} CutOffExact(c: Config, s: System, now: int, u: Id)
    ensures !Pending(s, u) <==>
              forall events | NoIssue(events, u) ::
                Active(Run(c, Step(c, s, RevokeAll(u), now), events).rows, u) == {}
  {
    var s' := Step(c, s, RevokeAll(u), now);
    assert s'.processes == s.processes && Active(s'.rows, u) == {};
    if Pending(s, u) {
      var pid :| pid in s.processes && s.processes[pid].Checked? && s.processes[pid].userId == u;
      var g := SomeGrant(s'.rows);
      PendingRevives(c, s', pid, g, now, u);
      RunOne(c, s', (RotateCreate(pid, g), now));
      assert NoIssue([(RotateCreate(pid, g), now)], u);
    } else {
      forall events | NoIssue(events, u)
        ensures Active(Run(c, s', events).rows, u) == {}
      {
        CutRun(c, s', events, u);
      }
    }
  }

  /** Such a rotation does occur: starting a session and reading its token is enough. */
  lemma {:induction false} PendingReachable(c: Config, u: Id, g: Grant, now: int)
    requires c.ttl >= 0 && Drawn(map[], g)
    ensures Pending(Run(c, EMPTY, [(IssueCreate(u, g), now), (RotateFind(0, RawToken(g)), now)]), u)
  {
    IssuedThenRead(c, u, g, now);
    hide Step, RawToken;
    RunTwo(c, EMPTY, (IssueCreate(u, g), now), (RotateFind(0, RawToken(g)), now));
    var s := Run(c, EMPTY, [(IssueCreate(u, g), now), (RotateFind(0, RawToken(g)), now)]);
    assert 0 in s.processes && s.processes[0].Checked? && s.processes[0].userId == u;
  }

  // ----- one request running alone -------------------------------------------

  /** The steps a rotation takes when nothing interleaves with it. */
  function RotateAlone(c: Config, t: Table, raw: string, g: Grant, now: int, pid: nat): seq<(Event, int)> {
    match Check(c, t, raw, now)
    case None => [(RotateFind(pid, raw), now), (RotateCreate(pid, g), now), (RotateLink(pid), now)]
    case Some(Reused) => [(RotateFind(pid, raw), now), (ReplayRevokeAll(pid), now)]
    case Some(_) => [(RotateFind(pid, raw), now)]
  }

  /** The atomic rotation is the uninterrupted run of its repository calls. */
  lemma {:induction false} RotateIsRun(c: Config, s: System, raw: string, g: Grant, now: int, pid: nat)
    requires Drawn(s.rows, g) && pid !in s.processes
    ensures Run(c, s, RotateAlone(c, s.rows, raw, g, now, pid))
         == s.(rows := Rotate(c, s.rows, raw, g, now).0)
  {
    RotateSwaps(c, s.rows, raw, g, now);
    var find, create, link := RotateFind(pid, raw), RotateCreate(pid, g), RotateLink(pid);
    match Check(c, s.rows, raw, now)
    case None =>
      RunThree(c, s, (find, now), (create, now), (link, now));
      var id := Parse(raw).value.id;
      var s1 := Step(c, s, find, now);
      assert s1 == s.(processes := s.processes[pid := Checked(id, s.rows[id].userId)]);
      var s2 := Step(c, s1, create, now);
      assert s2.processes[pid] == Created(id, g.id);
      var s3 := Step(c, s2, link, now);
      assert s3.rows == Swapped(c, s.rows, id, g, now);
      assert s3.processes == s.processes;
    case Some(Reused) =>
      RunTwo(c, s, (find, now), (ReplayRevokeAll(pid), now));
      var s1 := Step(c, s, find, now);
      assert s1.processes[pid].Replayed?;
      assert Finish(s1, pid) == s.processes;
    case Some(_) =>
      RunOne(c, s, (find, now));
  }

  /** The steps a logout takes when nothing interleaves with it. */
  function LogoutAlone(t: Table, raw: string, now: int, pid: nat): seq<(Event, int)> {
    [(LogoutFind(pid, raw), now)]
    + if Parse(raw).Some? && Parse(raw).value.id in t && t[Parse(raw).value.id].revokedAt.None?
      then [(LogoutRevoke(pid), now)] else []
  }

  /** The atomic logout is the uninterrupted run of its repository calls. */
  lemma {:induction false} LogoutIsRun(c: Config, s: System, raw: string, now: int, pid: nat)
    requires pid !in s.processes
    ensures Run(c, s, LogoutAlone(s.rows, raw, now, pid)) == s.(rows := Logout(s.rows, raw, now))
  {
    hide Parse, Check;
    var find, revoke := LogoutFind(pid, raw), LogoutRevoke(pid);
    if Parse(raw).Some? && Parse(raw).value.id in s.rows && s.rows[Parse(raw).value.id].revokedAt.None? {
      RunTwo(c, s, (find, now), (revoke, now));
      var s1 := Step(c, s, find, now);
      assert s1.processes[pid] == Leaving(Parse(raw).value.id);
      assert Finish(s1, pid) == s.processes;
      assert LogoutAlone(s.rows, raw, now, pid) == [(find, now), (revoke, now)];
    } else {
      RunOne(c, s, (find, now));
      assert LogoutAlone(s.rows, raw, now, pid) == [(find, now)];
    }
  }

  /** Issuing and revoking everything are single repository calls. */
  lemma {:induction false} SingleCallsAreRuns(c: Config, s: System, u: Id, g: Grant, now: int)
    ensures Drawn(s.rows, g) ==>
              Run(c, s, [(IssueCreate(u, g), now)]) == s.(rows := Issue(c, s.rows, u, g, now))
    ensures Run(c, s, [(RevokeAll(u), now)]) == s.(rows := RevokeAllForUser(s.rows, u, now))
  {
    RunOne(c, s, (IssueCreate(u, g), now));
    RunOne(c, s, (RevokeAll(u), now));
  }
}
