/** Concurrent registrations, one statement at a time. */
module RegistrationRuns {
  import opened Options
  import opened Sequences
  import opened AgentTokens
  import opened TokenStore

  datatype Warrant = NewDevice | Possession | Bypass

  /** How far a request has come: its verdict is known, its bypass has been considered, or
      it may rotate. */
  datatype Progress =
    | Judged(owner: Owner, token: Hash, verdict: Verdict)
    | Assessed(owner: Owner, token: Hash, verdict: Verdict, eligible: bool)
    | Admitted(owner: Owner, token: Hash, warrant: Warrant)

  datatype Server = Server(table: Table, devices: Devices, requests: map<int, Progress>)

  datatype Event =
    | Enroll(n: int, id: string, tenant: string, host: string, mac: string, token: Hash, at: int)
    | Examine(n: int, id: string, token: Hash, presented: Hash, row: Option<Hash>, at: int)
    | Assess(n: int, seen: Option<Hash>, cutoff: Cutoff, at: int)
    | Claim(n: int, at: int)
    | Rotate(n: int, prior: Option<Hash>, saves: bool, at: int)
    | DropRow(hash: Hash)
    | Heartbeat(id: string, at: int)

  function OwnerOfDevice(devices: Devices, id: string): Owner
    requires id in devices
  {
    OwnerOf(devices[id].tenant, id, devices[id].host)
  }

  predicate Possible(s: Server, e: Event) {
    match e
    case Enroll(n, id, tenant, host, mac, _, _) =>
      n !in s.requests && id !in s.devices && Matching(s.devices, tenant, host, mac) == {}
    case Examine(n, id, _, _, row, _) =>
      n !in s.requests && id in s.devices && ActiveRow(s.table, OwnerOfDevice(s.devices, id), row)
    case Assess(n, seen, _, _) =>
      n in s.requests && s.requests[n].Judged? && ActiveRow(s.table, s.requests[n].owner, seen)
    case Claim(n, _) => n in s.requests && s.requests[n].Assessed?
    case Rotate(n, prior, _, at) =>
      n in s.requests && s.requests[n].Admitted? && 0 < at &&
        PriorOf(s.table, s.requests[n].token, s.requests[n].owner, prior)
    case DropRow(_) => true
    case Heartbeat(id, _) => id in s.devices
  }

  /** The latch is still there for the request to take. */
  predicate TakesLatch(s: Server, p: Progress) {
    p.Assessed? && !Accepted(p.verdict) && p.eligible && p.owner.device in s.devices &&
      !s.devices[p.owner.device].bypassUsed
  }

  function Claimed(s: Server, n: int, at: int): Server
    requires n in s.requests && s.requests[n].Assessed?
  {
    var p := s.requests[n];
    if Accepted(p.verdict) then
      s.(requests := s.requests[n := Admitted(p.owner, p.token, Possession)], devices :=
        Seen(s.devices, p.owner.device, at))
    else if TakesLatch(s, p) then
      s.(requests := s.requests[n := Admitted(p.owner, p.token, Bypass)],
         devices := Seen(MarkBypass(s.devices, p.owner.device), p.owner.device, at))
    else s.(requests := s.requests - {n})
  }

  function Seen(devices: Devices, id: string, at: int): Devices {
    if id in devices then Touch(devices, id, at) else devices
  }

  function Step(s: Server, e: Event, dialect: Dialect): Server
    requires Possible(s, e)
  {
    match e
    case Enroll(n, id, tenant, host, mac, token, at) =>
      s.(devices := s.devices[id := Device(tenant, host, mac, Some(at), false)],
         requests := s.requests[n := Admitted(OwnerOf(tenant, id, host), token, NewDevice)])
    case Examine(n, id, token, presented, row, at) =>
      s.(requests := s.requests[n :=
        Judged(OwnerOfDevice(s.devices, id), token, Verify(s.table, row, Lookup(s.devices, id), presented, at))])
    case Assess(n, seen, cutoff, at) =>
      var p := s.requests[n];
      s.(requests := s.requests[n := Assessed(p.owner, p.token, p.verdict,
        BypassOpen(Lookup(s.devices, p.owner.device), cutoff, at) && Eligible(p.verdict, IsLegacy(s.table, seen)))])
    case Claim(n, at) => Claimed(s, n, at)
    case Rotate(n, prior, saves, at) =>
      var p := s.requests[n];
      s.(requests := s.requests - {n},
         table := if saves then RotatedTable(s.table, p.token, p.owner, at, prior, dialect) else s.table)
    case DropRow(h) => s.(table := s.table - {h})
    case Heartbeat(id, at) => s.(devices := Touch(s.devices, id, at))
  }

  predicate Runs(s: Server, events: seq<Event>, dialect: Dialect)
    decreases |events|, 0
  {
    events == [] || (Runs(s, Front(events), dialect) && Possible(After(s, Front(events), dialect), Last(events)))
  }

  function After(s: Server, events: seq<Event>, dialect: Dialect): Server
    requires Runs(s, events, dialect)
    decreases |events|, 1
  {
    if events == [] then s else Step(After(s, Front(events), dialect), Last(events), dialect)
  }

  // ---- One request without interference ----

  /** A new device is enrolled exactly when there is none of its tenant, host and address, and it
      is the one that the section under the lock leaves. */
  lemma EnrollExactly(s: Server, e: Event, dialect: Dialect)
    requires e.Enroll? && e.tenant != ""
    ensures Possible(s, e) <==>
      && e.n !in s.requests && e.id !in s.devices
      && forall d :: d in s.devices ==>
           !(s.devices[d].tenant == e.tenant && s.devices[d].host == e.host && s.devices[d].mac == e.mac)
    ensures Possible(s, e) ==>
      var u, r := Step(s, e, dialect), Request(e.tenant, e.host, e.mac, e.token, e.id, 0, e.at);
      && Settles(s.devices, u.devices, r, Registered(e.id)) && u.table == s.table
      && u.requests == s.requests[e.n := Admitted(Owner(e.tenant, e.id, e.host), e.token, NewDevice)]
  {
    MatchingAreFor(s.devices, Request(e.tenant, e.host, e.mac, e.token, e.id, 0, e.at));
  }

  /** Let in or turned away, as the handler decides it. */
  ghost predicate Admission(s: Server, v: Server, n: int, id: string, token: Hash, presented: Hash, cutoff: Cutoff,
                            now: int)
    requires id in s.devices
  {
    var d := s.devices[id];
    exists admitted, claimed ::
      && AdmissionOf(s.devices, s.table, d.tenant, d.host, id, presented, cutoff, now, admitted, claimed)
      && LetIn(s, v, n, id, token, now, admitted, claimed)
  }

  predicate LetIn(s: Server, v: Server, n: int, id: string, token: Hash, now: int, admitted: bool, claimed: Devices)
    requires id in s.devices
  {
    var d := s.devices[id];
    && id in claimed && v.devices == (if admitted then Touch(claimed, id, now) else claimed) && v.table == s.table
    && (admitted <==> n in v.requests)
    && (admitted ==>
          var p := v.requests[n]; p.Admitted? && p.owner == Owner(d.tenant, id, d.host) && p.token == token)
    && forall m :: m in s.requests && m != n ==> m in v.requests && v.requests[m] == s.requests[m]
  }

  /** The request has been examined and assessed against these answers of the two queries. */
  predicate AssessedAs(s: Server, u: Server, n: int, id: string, token: Hash, verdict: Verdict, legacy: bool,
                       cutoff: Cutoff, now: int)
    requires id in s.devices
  {
    var d := s.devices[id];
    var eligible := BypassOpen(Some(d), cutoff, now) && Eligible(verdict, legacy);
    u == s.(requests := s.requests[n := Assessed(Owner(d.tenant, id, d.host), token, verdict, eligible)])
  }

  lemma ClaimLetsIn(s: Server, u: Server, n: int, id: string, token: Hash, verdict: Verdict, legacy: bool,
                    cutoff: Cutoff, now: int)
    requires n !in s.requests && id in s.devices && AssessedAs(s, u, n, id, token, verdict, legacy, cutoff, now)
    ensures var admitted := Admits(s.devices[id], verdict, legacy, cutoff, now);
      var claimed := if admitted && !Accepted(verdict) then MarkBypass(s.devices, id) else s.devices;
      LetIn(s, Claimed(u, n, now), n, id, token, now, admitted, claimed)
  {
  }

  /** The steps of a request for a known device, undisturbed, are the handler's admission: the
      request is let in, the latch spent and the device seen just as there. */
  lemma UndisturbedAdmission(s: Server, n: int, id: string, token: Hash, presented: Hash, row: Option<Hash>,
                             seen: Option<Hash>, cutoff: Cutoff, now: int, dialect: Dialect)
    requires n !in s.requests && id in s.devices && s.devices[id].tenant != ""
    requires var o := Owner(s.devices[id].tenant, id, s.devices[id].host);
      ActiveRow(s.table, o, row) && ActiveRow(s.table, o, seen)
    ensures var examine, assess := Examine(n, id, token, presented, row, now), Assess(n, seen, cutoff, now);
      && Possible(s, examine) && Possible(Step(s, examine, dialect), assess)
      && var u := Step(Step(s, examine, dialect), assess, dialect);
         && Possible(u, Claim(n, now))
         && Admission(s, Step(u, Claim(n, now), dialect), n, id, token, presented, cutoff, now)
  {
    var d := s.devices[id];
    var verdict, legacy := Verify(s.table, row, Some(d), presented, now), IsLegacy(s.table, seen);
    var u := Step(Step(s, Examine(n, id, token, presented, row, now), dialect), Assess(n, seen, cutoff, now), dialect);
    assert AssessedAs(s, u, n, id, token, verdict, legacy, cutoff, now);
    ClaimLetsIn(s, u, n, id, token, verdict, legacy, cutoff, now);
    DecidedAs(s.devices, s.table, id, row, seen, presented, cutoff, now);
  }

  lemma DecidedAs(devices: Devices, t: Table, id: string, row: Option<Hash>, seen: Option<Hash>, presented: Hash,
                  cutoff: Cutoff, now: int)
    requires id in devices
    requires var o := Owner(devices[id].tenant, id, devices[id].host); ActiveRow(t, o, row) && ActiveRow(t, o, seen)
    ensures var d := devices[id];
      var verdict, legacy := Verify(t, row, Some(d), presented, now), IsLegacy(t, seen);
      var admitted := Admits(d, verdict, legacy, cutoff, now);
      AdmissionOf(devices, t, d.tenant, d.host, id, presented, cutoff, now, admitted,
                  if admitted && !Accepted(verdict) then MarkBypass(devices, id) else devices)
  {
    var d := devices[id];
    var o := Owner(d.tenant, id, d.host);
    assert JudgedAs(t, o, Some(d), presented, now, Verify(t, row, Some(d), presented, now));
    assert LegacyIs(t, o, IsLegacy(t, seen));
  }

  // ---- The latch ----

  function Used(s: Server, id: string): nat {
    if id in s.devices && s.devices[id].bypassUsed then 1 else 0
  }

  predicate GrantedBy(s: Server, e: Event, id: string)
    requires Possible(s, e)
  {
    e.Claim? && s.requests[e.n].owner.device == id && TakesLatch(s, s.requests[e.n])
  }

  /** The bypasses granted to one device along a run. */
  function Grants(s: Server, events: seq<Event>, id: string, dialect: Dialect): nat
    requires Runs(s, events, dialect)
    decreases |events|
  {
    if events == [] then 0
    else
      var granted := GrantedBy(After(s, Front(events), dialect), Last(events), id);
      Grants(s, Front(events), id, dialect) + if granted then 1 else 0
  }

  lemma LatchRecords(s: Server, e: Event, id: string, dialect: Dialect)
    requires Possible(s, e)
    ensures Used(Step(s, e, dialect), id) == Used(s, id) + if GrantedBy(s, e, id) then 1 else 0
  {
  }

  /** Whatever the number of claimants and however they interleave, the latch records every
      grant, so no device is granted more than one. */
  lemma {:induction false} AtMostOneBypass(s: Server, events: seq<Event>, id: string, dialect: Dialect)
    requires Runs(s, events, dialect)
    ensures Grants(s, events, id, dialect) == Used(After(s, events, dialect), id) - Used(s, id)
    ensures Grants(s, events, id, dialect) <= 1
    decreases |events|
  {
    if events != [] {
      AtMostOneBypass(s, Front(events), id, dialect);
      LatchRecords(After(s, Front(events), dialect), Last(events), id, dialect);
    }
  }

  // ---- Possession ----

  /** A request that can only go through on possession. */
  predicate NeedsPossession(p: Progress) {
    match p
    case Judged(_, _, v) => !v.NoPriorToken?
    case Assessed(_, _, v, eligible) => Accepted(v) || !eligible
    case Admitted(_, _, warrant) => warrant == Possession
  }

  /** The device has one active token that is no legacy row, and nobody is on the way to
      replacing it without possession. */
  ghost predicate Guarded(s: Server, o: Owner, b: Bound) {
    && o.device in s.devices && Remembers(s.table, o, b) && !s.table[b.current].legacy
    && forall n :: n in s.requests && s.requests[n].owner == o ==> NeedsPossession(s.requests[n])
  }

  function NextBound(s: Server, e: Event, o: Owner, b: Bound): Bound
    requires Possible(s, e)
  {
    if e.Rotate? && e.saves && s.requests[e.n].owner == o then Rebound(b, s.requests[e.n].token, e.at) else b
  }

  /** What can take the guard away: the active row is dropped, another device registers the
      very token, or Postgres revives a legacy row. */
  predicate Disturbs(s: Server, e: Event, o: Owner, b: Bound, dialect: Dialect)
    requires Possible(s, e)
  {
    match e
    case DropRow(h) => h == b.current
    case Rotate(n, _, saves, _) =>
      var p := s.requests[n];
      saves && (if p.owner == o then dialect.Postgres? && p.token in s.table && s.table[p.token].legacy
        else p.token == b.current)
    case _ => false
  }

  lemma RotateGuards(s: Server, e: Event, o: Owner, b: Bound, dialect: Dialect)
    requires Guarded(s, o, b) && Possible(s, e) && e.Rotate?
    ensures !Disturbs(s, e, o, b, dialect) ==> Guarded(Step(s, e, dialect), o, NextBound(s, e, o, b))
    ensures Disturbs(s, e, o, b, dialect) ==> forall c :: !Guarded(Step(s, e, dialect), o, c)
  {
    var p := s.requests[e.n];
    var u := Step(s, e, dialect);
    if e.saves {
      if p.owner == o {
        RotationRemembers(s.table, p.token, o, e.at, e.prior, dialect, b);
        forall c | Remembers(u.table, o, c) ensures c.current == p.token { assert c.current in Actives(u.table, o); }
      } else {
        OtherRotation(s.table, p.token, p.owner, e.at, e.prior, dialect, o, b);
      }
    }
  }

  lemma OtherRotation(t: Table, h: Hash, other: Owner, now: int, prior: Option<Hash>, dialect: Dialect, o: Owner,
                      b: Bound)
    requires Remembers(t, o, b) && other != o
    ensures var after := RotatedTable(t, h, other, now, prior, dialect);
      if h != b.current then Remembers(after, o, b) && after[b.current].legacy == t[b.current].legacy
        else forall c :: !Remembers(after, o, c)
  {
    var after := RotatedTable(t, h, other, now, prior, dialect);
    assert b.current in Actives(t, o);
    forall g ensures g in Actives(after, o) <==> g == b.current && g != h {
      if g in t && g != h { assert g in Actives(t, o) <==> g == b.current; }
    }
    if h != b.current {
      assert Actives(after, o) == {b.current};
    } else {
      assert b.current !in Actives(after, o);
    }
  }

  lemma DropGuards(s: Server, e: Event, o: Owner, b: Bound, dialect: Dialect)
    requires Guarded(s, o, b) && Possible(s, e) && e.DropRow?
    ensures !Disturbs(s, e, o, b, dialect) ==> Guarded(Step(s, e, dialect), o, b)
    ensures Disturbs(s, e, o, b, dialect) ==> forall c :: !Guarded(Step(s, e, dialect), o, c)
  {
  }

  lemma ExamineGuards(s: Server, e: Event, o: Owner, b: Bound, dialect: Dialect)
    requires Guarded(s, o, b) && Possible(s, e) && (e.Examine? || e.Assess?)
    ensures Guarded(Step(s, e, dialect), o, b)
  {
  }

  /** The guard outlives exactly the undisturbed steps. */
  lemma StepGuards(s: Server, e: Event, o: Owner, b: Bound, dialect: Dialect)
    requires Guarded(s, o, b) && Possible(s, e)
    ensures !Disturbs(s, e, o, b, dialect) ==> Guarded(Step(s, e, dialect), o, NextBound(s, e, o, b))
    ensures Disturbs(s, e, o, b, dialect) ==> forall c :: !Guarded(Step(s, e, dialect), o, c)
  {
    match e
    case Rotate(_, _, _, _) => RotateGuards(s, e, o, b, dialect);
    case DropRow(_) => DropGuards(s, e, o, b, dialect);
    case Examine(_, _, _, _, _, _) => ExamineGuards(s, e, o, b, dialect);
    case Assess(_, _, _, _) => ExamineGuards(s, e, o, b, dialect);
    case _ =>
  }

  /** What the server remembers for a guarded owner after each event. */
  function Bounds(s: Server, events: seq<Event>, o: Owner, b: Bound, dialect: Dialect): Bound
    requires Runs(s, events, dialect)
    decreases |events|
  {
    if events == [] then b
    else NextBound(After(s, Front(events), dialect), Last(events), o, Bounds(s, Front(events), o, b, dialect))
  }

  predicate Undisturbed(s: Server, events: seq<Event>, o: Owner, b: Bound, dialect: Dialect)
    requires Runs(s, events, dialect)
    decreases |events|
  {
    events == [] || (Undisturbed(s, Front(events), o, b, dialect)
      && !Disturbs(After(s, Front(events), dialect), Last(events), o, Bounds(s, Front(events), o, b, dialect), dialect))
  }

  lemma {:induction false} RunGuards(s: Server, events: seq<Event>, o: Owner, b: Bound, dialect: Dialect)
    requires Guarded(s, o, b) && Runs(s, events, dialect) && Undisturbed(s, events, o, b, dialect)
    ensures Guarded(After(s, events, dialect), o, Bounds(s, events, o, b, dialect))
    decreases |events|
  {
    if events != [] {
      RunGuards(s, Front(events), o, b, dialect);
      StepGuards(After(s, Front(events), dialect), Last(events), o, Bounds(s, Front(events), o, b, dialect), dialect);
    }
  }

  /** At event j the request presented the current token, or the previous one inside its
      window. */
  predicate Shows(s: Server, events: seq<Event>, j: nat, n: int, o: Owner, b: Bound, dialect: Dialect) {
    && j < |events| && Runs(s, events[..j], dialect)
    && events[j].Examine? && events[j].n == n && events[j].presented != ""
    && Possesses(Bounds(s, events[..j], o, b, dialect), events[j].presented, events[j].at)
  }

  predicate OnPossession(p: Progress) {
    match p
    case Judged(_, _, v) => Accepted(v)
    case Assessed(_, _, v, _) => Accepted(v)
    case Admitted(_, _, warrant) => true
  }

  lemma ShowsLonger(s: Server, events: seq<Event>, j: nat, n: int, o: Owner, b: Bound, dialect: Dialect)
    requires events != [] && Shows(s, Front(events), j, n, o, b, dialect)
    ensures Shows(s, events, j, n, o, b, dialect)
  {
    assert Front(events)[..j] == events[..j];
  }

  lemma ExamineShows(s: Server, events: seq<Event>, o: Owner, b: Bound, dialect: Dialect)
    requires Runs(s, events, dialect) && events != [] && Last(events).Examine?
    requires Guarded(After(s, Front(events), dialect), o, Bounds(s, Front(events), o, b, dialect))
    requires var p := After(s, events, dialect).requests[Last(events).n]; p.owner == o && OnPossession(p)
    ensures Shows(s, events, |events| - 1, Last(events).n, o, b, dialect)
  {
  }

  /** What a request has shown it keeps until it is examined again. */
  lemma ThroughBefore(u: Server, e: Event, n: int, o: Owner, b: Bound, dialect: Dialect)
    requires Guarded(u, o, b) && Possible(u, e) && !(e.Examine? && e.n == n)
    requires var v := Step(u, e, dialect); n in v.requests && v.requests[n].owner == o && OnPossession(v.requests[n])
    ensures n in u.requests && u.requests[n].owner == o && OnPossession(u.requests[n])
  {
  }

  /** Every request for a guarded device that gets through has shown possession on the way. */
  lemma {:induction false} ThroughOnlyByPossession(s: Server, events: seq<Event>, n: int, o: Owner, b: Bound,
                                                   dialect: Dialect) returns (j: nat)
    requires Guarded(s, o, b) && Runs(s, events, dialect) && Undisturbed(s, events, o, b, dialect)
    requires forall m :: m in s.requests ==> s.requests[m].owner != o
    requires var u := After(s, events, dialect);
      n in u.requests && u.requests[n].owner == o && OnPossession(u.requests[n])
    ensures Shows(s, events, j, n, o, b, dialect)
    decreases |events|
  {
    if events != [] {
      RunGuards(s, Front(events), o, b, dialect);
      if Last(events).Examine? && Last(events).n == n {
        j := |events| - 1;
        ExamineShows(s, events, o, b, dialect);
      } else {
        ThroughBefore(After(s, Front(events), dialect), Last(events), n, o, Bounds(s, Front(events), o, b, dialect),
                      dialect);
        j := ThroughOnlyByPossession(s, Front(events), n, o, b, dialect);
        ShowsLonger(s, events, j, n, o, b, dialect);
      }
    }
  }

  /** No interleaving of registrations rebinds a guarded device unless some request in it
      presented the current token or the previous one strictly inside its window. */
  lemma {:induction false} NoRebindingWithoutPossession(s: Server, events: seq<Event>, o: Owner, b: Bound,
                                                        dialect: Dialect)
    requires Guarded(s, o, b) && Runs(s, events, dialect) && Undisturbed(s, events, o, b, dialect)
    requires forall m :: m in s.requests ==> s.requests[m].owner != o
    ensures Remembers(After(s, events, dialect).table, o, Bounds(s, events, o, b, dialect))
    ensures Bounds(s, events, o, b, dialect) != b ==> exists j, n :: Shows(s, events, j, n, o, b, dialect)
    decreases |events|
  {
    RunGuards(s, events, o, b, dialect);
    if events != [] {
      NoRebindingWithoutPossession(s, Front(events), o, b, dialect);
      var e := Last(events);
      var u := After(s, Front(events), dialect);
      if Bounds(s, Front(events), o, b, dialect) != b {
        var j, n :| Shows(s, Front(events), j, n, o, b, dialect);
        ShowsLonger(s, events, j, n, o, b, dialect);
      } else if e.Rotate? && u.requests[e.n].owner == o {
        var j := ThroughOnlyByPossession(s, Front(events), e.n, o, b, dialect);
        ShowsLonger(s, events, j, e.n, o, b, dialect);
      }
    }
  }

  // ---- Late acknowledgement or crash recovery ----

  /** The event updates the device's last-seen time: a heartbeat, or a request let in. */
  predicate Sees(s: Server, e: Event, id: string)
    requires Possible(s, e)
  {
    match e
    case Heartbeat(h, _) => h == id
    case Claim(n, _) =>
      var p := s.requests[n];
      p.owner.device == id && id in s.devices && (Accepted(p.verdict) || TakesLatch(s, p))
    case _ => false
  }

  predicate Timed(e: Event) {
    !e.DropRow?
  }

  predicate InOrder(events: seq<Event>) {
    forall i, j :: 0 <= i < j < |events| && Timed(events[i]) && Timed(events[j]) ==> events[i].at <= events[j].at
  }

  /** Some event of the run saw the device later than this time. */
  predicate SeenLater(s: Server, events: seq<Event>, id: string, time: int, dialect: Dialect)
    requires Runs(s, events, dialect)
    decreases |events|
  {
    events != [] && (SeenLater(s, Front(events), id, time, dialect)
      || (Sees(After(s, Front(events), dialect), Last(events), id) && Last(events).at > time))
  }

  /** No stored rotation of the owner or of its token, and its row is not dropped. */
  predicate LeavesRow(s: Server, events: seq<Event>, o: Owner, current: Hash, dialect: Dialect)
    requires Runs(s, events, dialect)
    decreases |events|
  {
    events == [] || (LeavesRow(s, Front(events), o, current, dialect)
      && var u, e := After(s, Front(events), dialect), Last(events);
        && e != DropRow(current)
        && (e.Rotate? && e.saves ==> u.requests[e.n].owner != o && u.requests[e.n].token != current))
  }

  lemma {:induction false} SeenIsTimed(s: Server, events: seq<Event>, id: string, time: int, dialect: Dialect)
    requires Runs(s, events, dialect) && SeenLater(s, events, id, time, dialect)
    ensures exists i :: 0 <= i < |events| && Timed(events[i]) && events[i].at > time
    decreases |events|
  {
    if SeenLater(s, Front(events), id, time, dialect) {
      SeenIsTimed(s, Front(events), id, time, dialect);
      var i :| 0 <= i < |Front(events)| && Timed(Front(events)[i]) && Front(events)[i].at > time;
      assert events[i] == Front(events)[i];
    } else {
      assert Timed(events[|events| - 1]);
    }
  }

  lemma SeenStep(s: Server, e: Event, id: string, time: int, dialect: Dialect)
    requires Possible(s, e) && id in s.devices
    requires SeenSince(Some(s.devices[id]), time) && Timed(e) ==> time < e.at
    ensures id in Step(s, e, dialect).devices
    ensures SeenSince(Some(Step(s, e, dialect).devices[id]), time) <==>
      SeenSince(Some(s.devices[id]), time) || (Sees(s, e, id) && time < e.at)
  {
  }

  lemma RowStep(s: Server, e: Event, o: Owner, b: Bound, dialect: Dialect)
    requires Possible(s, e) && Remembers(s.table, o, b) && e != DropRow(b.current)
    requires e.Rotate? && e.saves ==> s.requests[e.n].owner != o && s.requests[e.n].token != b.current
    ensures Remembers(Step(s, e, dialect).table, o, b)
  {
    if e.Rotate? && e.saves {
      var p := s.requests[e.n];
      OtherRotation(s.table, p.token, p.owner, e.at, e.prior, dialect, o, b);
    } else if e.DropRow? {
      assert b.current in Actives(s.table, o);
      assert Actives(s.table - {e.hash}, o) == Actives(s.table, o) - {e.hash};
    }
  }

  lemma {:induction false} SeenRun(s: Server, events: seq<Event>, o: Owner, b: Bound, time: int, dialect: Dialect)
    requires Runs(s, events, dialect) && InOrder(events) && Remembers(s.table, o, b)
    requires LeavesRow(s, events, o, b.current, dialect)
    requires o.device in s.devices && !SeenSince(Some(s.devices[o.device]), time)
    ensures var u := After(s, events, dialect);
      && Remembers(u.table, o, b) && o.device in u.devices
      && (SeenSince(Some(u.devices[o.device]), time) <==> SeenLater(s, events, o.device, time, dialect))
    decreases |events|
  {
    if events != [] {
      var u, e := After(s, Front(events), dialect), Last(events);
      assert forall i :: 0 <= i < |Front(events)| ==> Front(events)[i] == events[i];
      SeenRun(s, Front(events), o, b, time, dialect);
      RowStep(u, e, o, b, dialect);
      if SeenLater(s, Front(events), o.device, time, dialect) {
        SeenIsTimed(s, Front(events), o.device, time, dialect);
        var i :| 0 <= i < |Front(events)| && Timed(Front(events)[i]) && Front(events)[i].at > time;
        assert Timed(e) ==> events[i].at <= events[|events| - 1].at;
      }
      SeenStep(u, e, o.device, time, dialect);
    }
  }

  /** The two grace verdicts over every run since a rotation: less than a minute after it the
      token it replaced is taken for a crash recovery until the device has been seen later than
      the rotation, by a heartbeat or a request let in, and for a late acknowledgement from then
      on. */
  lemma GraceVerdictOverRuns(s: Server, events: seq<Event>, o: Owner, current: Hash, replaced: Previous,
                             row: Option<Hash>, now: int, dialect: Dialect)
    requires Remembers(s.table, o, Bound(current, Some(replaced))) && replaced.hash != "" && replaced.hash != current
    requires o.device in s.devices
    requires s.devices[o.device].lastSeen.Some? ==> s.devices[o.device].lastSeen.value <= replaced.rotatedAt
    requires Runs(s, events, dialect) && InOrder(events) && LeavesRow(s, events, o, current, dialect)
    requires ActiveRow(After(s, events, dialect).table, o, row) && now < replaced.rotatedAt + 60
    ensures var u := After(s, events, dialect);
      Verify(u.table, row, Lookup(u.devices, o.device), replaced.hash, now) ==
        if SeenLater(s, events, o.device, replaced.rotatedAt, dialect) then GraceRotationAck else GraceCrashRecovery
  {
    var b := Bound(current, Some(replaced));
    SeenRun(s, events, o, b, replaced.rotatedAt, dialect);
    var u := After(s, events, dialect);
    assert current in Actives(u.table, o);
    JudgeTells(b, Lookup(u.devices, o.device), replaced.hash, now);
  }
}
