/** The agent's protocol run against the server's own tables. */
module ProtocolRefinement {
  import opened Options
  import opened Sequences
  import opened AgentTokens
  import opened TokenStore
  import P = AgentProtocol

  /** `pending` holds the hashes that a prune has taken from the cache and not yet from the
      table. */
  datatype Server = Server(devices: Devices, table: Table, cache: Cache, pending: set<Hash>)

  /** The device the agent runs on. */
  datatype Identity = Identity(tenant: string, host: string, id: string)

  function OwnerOfAgent(me: Identity): Owner {
    Owner(me.tenant, me.id, me.host)
  }

  /** An admission refreshes the device and rotates its token, in the cache always and in the
      table unless the transaction rolls back; a refusal changes nothing. */
  ghost predicate Answers(a: Server, b: Server, me: Identity, token: Hash, at: int, admitted: bool, claimed: Devices,
                          saves: bool, dialect: Dialect)
  {
    if admitted then
      && me.id in claimed && b.devices == Touch(claimed, me.id, at)
      && b.cache == RotatedCache(a.cache, token, OwnerOfAgent(me), at) && b.pending == a.pending
      && if saves then Rotates(a.table, b.table, token, OwnerOfAgent(me), at, dialect) else b.table == a.table
    else b == a
  }

  /** What the register handler may do with an attempt. */
  ghost predicate Handles(a: Server, b: Server, me: Identity, presented: Hash, token: Hash, cutoff: Cutoff, at: int,
                          admitted: bool, saves: bool, dialect: Dialect)
  {
    && me.id in a.devices
    && exists claimed ::
         && AdmissionOf(a.devices, a.table, me.tenant, me.host, me.id, presented, cutoff, at, admitted, claimed)
         && Answers(a, b, me, token, at, admitted, claimed, saves, dialect)
  }

  ghost predicate HandlesEvent(a: Server, b: Server, me: Identity, s: P.State, e: P.Event, admitted: bool)
    requires e.Attempt?
  {
    Handles(a, b, me, s.memory, P.Token(s, e), e.cutoff, e.at, admitted, e.saves, s.dialect)
  }

  /** What is stored, cached and pending about a hash is the same. */
  predicate SameAbout(a: Server, b: Server, h: Hash) {
    && (h in b.table <==> h in a.table) && (h in a.table ==> b.table[h] == a.table[h])
    && (h in b.cache <==> h in a.cache) && (h in a.cache ==> b.cache[h] == a.cache[h])
    && (h in b.pending <==> h in a.pending)
  }

  /** The requests, rotations, prunes and heartbeats of everybody else: they leave this
      device's latch, its active rows and all about its agent's tokens alone. */
  ghost predicate Elsewhere(a: Server, b: Server, me: Identity, mine: set<Hash>) {
    && (me.id in a.devices ==> me.id in b.devices && b.devices[me.id].bypassUsed == a.devices[me.id].bypassUsed)
    && Actives(b.table, OwnerOfAgent(me)) == Actives(a.table, OwnerOfAgent(me))
    && forall h :: h in mine ==> SameAbout(a, b, h)
  }

  /** One event of the agent, of the pruner or of a restart as the server sees it. The pruner
      takes what is dead in the cache, whatever the table says, and deletes by hash. */
  ghost predicate Serves(a: Server, b: Server, me: Identity, s: P.State, e: P.Event) {
    if P.Reaches(e) then exists admitted :: HandlesEvent(a, b, me, s, e, admitted)
    else match e
      case Sweep(h, at) =>
        && h in a.cache && !Live(a.cache[h], at)
        && b == a.(cache := a.cache - {h}, pending := a.pending + {h})
      case Delete(h) => h in a.pending && b == a.(table := a.table - {h}, pending := a.pending - {h})
      case ServerRestart => b == a.(cache := Projection(a.table), pending := {})
      case _ => b == a
  }

  ghost predicate RowsMatch(t: Table, o: Owner, bound: Option<Bound>) {
    match bound
    case None => Actives(t, o) == {}
    case Some(b) => Remembers(t, o, b)
  }

  predicate LegacyRow(t: Table, h: Hash) {
    h in t && t[h].legacy
  }

  predicate SameRow(t: Table, rows: Cache, legacy: set<Hash>, h: Hash) {
    && (h in rows <==> h in t) && (h in t ==> rows[h] == t[h].entry)
    && (h in legacy <==> LegacyRow(t, h))
  }

  predicate SameEntry(c: Cache, d: Cache, h: Hash) {
    (h in d <==> h in c) && (h in c ==> d[h] == c[h])
  }

  /** The protocol's record says about a token what the server holds. */
  predicate Agrees(a: Server, s: P.State, h: Hash) {
    && SameRow(a.table, s.rows, s.legacy, h) && SameEntry(a.cache, s.cache, h)
    && (h in s.pending <==> h in a.pending)
  }

  /** The server's rows, cache and latch are what the protocol's record says, for every token
      that the agent ever had. */
  ghost predicate Matches(a: Server, me: Identity, s: P.State) {
    && me.id in a.devices && a.devices[me.id].bypassUsed == s.latchUsed && s.owner == OwnerOfAgent(me)
    && RowsMatch(a.table, OwnerOfAgent(me), s.bound)
    && (forall h :: h in s.known ==> Agrees(a, s, h))
    && P.Sound(s) && s.memory != ""
  }

  predicate Unseen(a: Server, h: Hash) {
    h !in a.table && h !in a.cache && h !in a.pending
  }

  /** Time does not go back, tokens just generated are not empty and new to agent and server,
      and the pruner's events beside the agent's are those about its tokens. */
  predicate Proper(a: Server, s: P.State, e: P.Event) {
    match e
    case Attempt(renewal, at, _, _, _) =>
      && s.clock <= at
      && (renewal.Some? ==> renewal.value != "" && renewal.value !in s.known && Unseen(a, renewal.value))
    case Restart(generated) => generated !in s.known && Unseen(a, generated)
    case Sweep(h, at) => s.clock <= at && h in s.known
    case Delete(h) => h in s.known
    case ServerRestart => true
  }

  lemma RotationMatches(t: Table, after: Table, h: Hash, o: Owner, now: int, dialect: Dialect, bound: Option<Bound>)
    requires Rotates(t, after, h, o, now, dialect) && RowsMatch(t, o, bound) && now > 0
    ensures RowsMatch(after, o, Some(P.NewBound(bound, h, now)))
  {
    var prior :| PriorOf(t, h, o, prior) && after == RotatedTable(t, h, o, now, prior, dialect);
    match bound
    case Some(b) => RotationRemembers(t, h, o, now, prior, dialect, b);
    case None => FirstRotationRemembers(t, h, o, now, prior, dialect);
  }

  /** What a rotation makes of each row. */
  lemma RotationRow(t: Table, after: Table, rows: Cache, legacy: set<Hash>, h: Hash, o: Owner, now: int,
                    dialect: Dialect, g: Hash)
    requires Rotates(t, after, h, o, now, dialect) && SameRow(t, rows, legacy, g)
    ensures SameRow(after, RotatedCache(rows, h, o, now), if dialect.SQLite? then legacy - {h} else legacy, g)
  {
    var prior :| PriorOf(t, h, o, prior) && after == RotatedTable(t, h, o, now, prior, dialect);
  }

  lemma RotationEntry(c: Cache, d: Cache, h: Hash, o: Owner, now: int, g: Hash)
    requires SameEntry(c, d, g)
    ensures SameEntry(RotatedCache(c, h, o, now), RotatedCache(d, h, o, now), g)
  {
  }

  /** Without an active row the latch alone decides. */
  lemma OnlyLatchAdmits(devices: Devices, t: Table, tenant: string, host: string, id: string, presented: Hash,
                        cutoff: Cutoff, now: int, admitted: bool, after: Devices)
    requires id in devices && Actives(t, Owner(tenant, id, host)) == {}
    requires AdmissionOf(devices, t, tenant, host, id, presented, cutoff, now, admitted, after)
    ensures admitted <==> !devices[id].bypassUsed && (cutoff.NoCutoff? || (cutoff.CutoffAt? && now <= cutoff.time))
    ensures after == if admitted then MarkBypass(devices, id) else devices
  {
  }

  lemma DecisionRefines(a: Server, me: Identity, s: P.State, e: P.Event, admitted: bool, claimed: Devices)
    requires Matches(a, me, s) && P.Reaches(e)
    requires AdmissionOf(a.devices, a.table, me.tenant, me.host, me.id, s.memory, e.cutoff, e.at, admitted, claimed)
    ensures admitted <==> P.Accepts(s, e)
    ensures claimed == if admitted && !P.ShowsPossession(s, e.at) then MarkBypass(a.devices, me.id) else a.devices
  {
    match s.bound
    case Some(b) =>
      assert Agrees(a, s, b.current);
      AdmissionExact(a.devices, a.table, me.tenant, me.host, me.id, b, s.memory, e.cutoff, e.at, admitted, claimed);
    case None =>
      OnlyLatchAdmits(a.devices, a.table, me.tenant, me.host, me.id, s.memory, e.cutoff, e.at, admitted, claimed);
  }

  lemma ProperPossible(a: Server, me: Identity, s: P.State, e: P.Event)
    requires Matches(a, me, s) && Proper(a, s, e)
    requires e.Sweep? ==> e.hash in a.cache && !Live(a.cache[e.hash], e.at)
    requires e.Delete? ==> e.hash in a.pending
    ensures P.Possible(s, e)
  {
    if e.Sweep? || e.Delete? { assert Agrees(a, s, e.hash); }
  }

  /** A token that the agent has just generated. */
  lemma UnseenAgrees(a: Server, s: P.State, h: Hash)
    requires P.Known(s) && h !in s.known && Unseen(a, h)
    ensures Agrees(a, s, h)
  {
  }

  lemma TokenAgrees(a: Server, me: Identity, s: P.State, e: P.Event, g: Hash)
    requires Matches(a, me, s) && Proper(a, s, e) && e.Attempt? && g in P.Step(s, e, None).known
    ensures Agrees(a, s, g)
  {
    if g !in s.known { UnseenAgrees(a, s, g); }
  }

  /** The rotation itself, on the server and in the record. */
  ghost predicate BothRotate(a: Server, b: Server, s: P.State, u: P.State, h: Hash, at: int, saves: bool) {
    && P.RotatesTo(s, u, h, at, saves)
    && b.cache == RotatedCache(a.cache, h, s.owner, at) && b.pending == a.pending
    && if saves then Rotates(a.table, b.table, h, s.owner, at, s.dialect) else b.table == a.table
  }

  lemma RotationAgrees(a: Server, b: Server, s: P.State, u: P.State, h: Hash, at: int, saves: bool, g: Hash)
    requires Agrees(a, s, g) && BothRotate(a, b, s, u, h, at, saves)
    ensures Agrees(b, u, g)
  {
    RotationEntry(a.cache, s.cache, h, s.owner, at, g);
    if saves { RotationRow(a.table, b.table, s.rows, s.legacy, h, s.owner, at, s.dialect, g); }
  }

  lemma AdmissionMatches(a: Server, b: Server, me: Identity, s: P.State, e: P.Event, claimed: Devices)
    requires Matches(a, me, s) && P.Possible(s, e) && Proper(a, s, e) && P.Accepts(s, e)
    requires claimed == if !P.ShowsPossession(s, e.at) then MarkBypass(a.devices, me.id) else a.devices
    requires Answers(a, b, me, P.Token(s, e), e.at, true, claimed, e.saves, s.dialect)
    ensures Matches(b, me, P.Step(s, e, None))
  {
    var u := P.Step(s, e, None);
    P.StandingStep(s, e);
    P.AcceptedStep(s, e, None);
    forall g | g in u.known ensures Agrees(b, u, g) {
      TokenAgrees(a, me, s, e, g);
      RotationAgrees(a, b, s, u, P.Token(s, e), e.at, e.saves, g);
    }
    RecordMatches(a, b, me, s, u, P.Token(s, e), e.at, e.saves);
    MemoryNamed(s, e);
  }

  lemma RecordMatches(a: Server, b: Server, me: Identity, s: P.State, u: P.State, h: Hash, at: int, saves: bool)
    requires RowsMatch(a.table, s.owner, s.bound) && BothRotate(a, b, s, u, h, at, saves) && at > 0
    ensures RowsMatch(b.table, u.owner, u.bound)
  {
    if saves { RotationMatches(a.table, b.table, h, s.owner, at, s.dialect, s.bound); }
  }

  lemma MemoryNamed(s: P.State, e: P.Event)
    requires s.memory != "" && e.Attempt? && e.renewal != Some("") && s.disk == Some(s.memory)
    ensures P.Step(s, e, None).memory != ""
  {
  }

  lemma RefusedMatches(a: Server, me: Identity, s: P.State, e: P.Event)
    requires Matches(a, me, s) && P.Possible(s, e) && Proper(a, s, e) && e.Attempt? && !P.Accepts(s, e)
    ensures Matches(a, me, P.Step(s, e, None))
  {
    var u := P.Step(s, e, None);
    P.StandingStep(s, e);
    forall g | g in u.known ensures Agrees(a, u, g) { TokenAgrees(a, me, s, e, g); }
  }

  /** The handler admits an attempt exactly when the protocol accepts it, and leaves the rows,
      the cache and the latch that the protocol expects. */
  lemma HandlingRefines(a: Server, b: Server, me: Identity, s: P.State, e: P.Event, admitted: bool)
    requires Matches(a, me, s) && Proper(a, s, e) && P.Reaches(e)
    requires HandlesEvent(a, b, me, s, e, admitted)
    ensures admitted <==> P.Accepts(s, e)
    ensures Matches(b, me, P.Step(s, e, None))
  {
    var claimed :|
      && AdmissionOf(a.devices, a.table, me.tenant, me.host, me.id, s.memory, e.cutoff, e.at, admitted, claimed)
      && Answers(a, b, me, P.Token(s, e), e.at, admitted, claimed, e.saves, s.dialect);
    DecisionRefines(a, me, s, e, admitted, claimed);
    ProperPossible(a, me, s, e);
    if admitted {
      AdmissionMatches(a, b, me, s, e, claimed);
    } else {
      RefusedMatches(a, me, s, e);
    }
  }

  lemma DeleteMatches(t: Table, o: Owner, h: Hash, bound: Option<Bound>)
    requires RowsMatch(t, o, bound)
    ensures RowsMatch(t - {h}, o, if bound.Some? && bound.value.current == h then None else bound)
  {
    assert Actives(t - {h}, o) == Actives(t, o) - {h};
    if bound.Some? { assert bound.value.current in Actives(t, o); }
  }

  /** The pruner's steps and the restarts keep the two together. */
  lemma ServerStepRefines(a: Server, b: Server, me: Identity, s: P.State, e: P.Event)
    requires Matches(a, me, s) && Proper(a, s, e) && P.Possible(s, e) && Serves(a, b, me, s, e) && !e.Attempt?
    ensures Matches(b, me, P.Step(s, e, None))
  {
    var u := P.Step(s, e, None);
    P.StandingStep(s, e);
    if e.Delete? { DeleteMatches(a.table, s.owner, e.hash, s.bound); }
    forall g | g in u.known ensures Agrees(b, u, g) {
      if g !in s.known { UnseenAgrees(a, s, g); }
    }
  }

  lemma ElsewhereMatches(a: Server, b: Server, me: Identity, s: P.State)
    requires Matches(a, me, s) && Elsewhere(a, b, me, s.known)
    ensures Matches(b, me, s)
  {
    if s.bound.Some? { assert s.bound.value.current in Actives(a.table, OwnerOfAgent(me)); }
    forall h | h in s.known ensures Agrees(b, s, h) { assert Agrees(a, s, h) && SameAbout(a, b, h); }
  }

  lemma StepRefines(a: Server, b: Server, me: Identity, s: P.State, e: P.Event)
    requires Matches(a, me, s) && Proper(a, s, e) && Serves(a, b, me, s, e)
    ensures P.Possible(s, e) && Matches(b, me, P.Step(s, e, None))
  {
    ProperPossible(a, me, s, e);
    if P.Reaches(e) {
      var admitted :| HandlesEvent(a, b, me, s, e, admitted);
      HandlingRefines(a, b, me, s, e, admitted);
    } else if e.Attempt? {
      RefusedMatches(a, me, s, e);
    } else {
      ServerStepRefines(a, b, me, s, e);
    }
  }

  /** A run of the agent, the pruner and restarts with the server's states beside it; before each
      event anything may happen elsewhere. */
  ghost predicate ServedRun(servers: seq<Server>, me: Identity, s: P.State, events: seq<P.Event>)
    decreases |events|
  {
    && |servers| == |events| + 1
    && (events != [] ==>
      && ServedRun(Front(servers), me, s, Front(events))
      && var u := P.After(s, Front(events), None);
         exists busy ::
           && Elsewhere(Last(Front(servers)), busy, me, u.known) && Proper(busy, u, Last(events))
           && Serves(busy, Last(servers), me, u, Last(events)))
  }

  /** Refinement over whole runs: whatever the pruner takes, rolled-back rotations included, the
      protocol allows, and the server's rows, cache and latch always are what the protocol says. */
  lemma {:induction false} RunRefines(servers: seq<Server>, me: Identity, s: P.State, events: seq<P.Event>)
    requires ServedRun(servers, me, s, events) && Matches(servers[0], me, s)
    ensures P.Runs(s, events, None) && Matches(Last(servers), me, P.After(s, events, None))
    decreases |events|
  {
    if events != [] {
      var u := P.After(s, Front(events), None);
      assert Front(servers)[0] == servers[0];
      RunRefines(Front(servers), me, s, Front(events));
      var busy :|
        && Elsewhere(Last(Front(servers)), busy, me, u.known) && Proper(busy, u, Last(events))
        && Serves(busy, Last(servers), me, u, Last(events));
      ElsewhereMatches(Last(Front(servers)), busy, me, u);
      StepRefines(busy, Last(servers), me, u, Last(events));
    }
  }

  lemma AdmittedNow(a: Server, after: Server, me: Identity, s: P.State, next: P.Event, admitted: bool)
    requires Matches(a, me, s) && Proper(a, s, next) && P.Reaches(next)
    requires HandlesEvent(a, after, me, s, next, admitted)
    ensures admitted <==> P.Admissible(P.StandingOf(s), s, next.cutoff, next.at)
  {
    HandlingRefines(a, after, me, s, next, admitted);
    P.AcceptedWhen(s, next);
  }

  /** When the real handler lets the agent in, after any run: in step always, one behind for
      60 seconds, without an active row by the latch alone, and on a row from before possession
      was checked by the latch as well. The standing is told from what was accepted, lost and
      dropped so far. */
  lemma AdmittedExactly(servers: seq<Server>, me: Identity, s: P.State, events: seq<P.Event>,
                        next: P.Event, after: Server, admitted: bool)
    requires ServedRun(servers, me, s, events) && Matches(servers[0], me, s)
    requires var u := P.After(s, events, None);
      Proper(Last(servers), u, next) && P.Reaches(next) && HandlesEvent(Last(servers), after, me, u, next, admitted)
    ensures admitted <==> P.Admissible(P.Tally(s, events), P.After(s, events, None), next.cutoff, next.at)
  {
    RunRefines(servers, me, s, events);
    P.StandingIsTally(s, events);
    AdmittedNow(Last(servers), after, me, P.After(s, events, None), next, admitted);
  }

  lemma SweepsAtEnd(a: Server, me: Identity, s: P.State, h: Hash, at: int)
    requires Matches(a, me, s) && P.IsCurrent(s, h) && s.clock <= at && h in a.cache && !Live(a.cache[h], at)
    ensures P.Earliest(s).Some? && P.Earliest(s).value <= at
  {
    assert Agrees(a, s, h);
  }

  /** When the pruner can take the active row's token, after any run: not before its end in the
      cache or, after a restart, in the table. */
  lemma SweepNeedsEnd(servers: seq<Server>, me: Identity, s: P.State, events: seq<P.Event>, h: Hash, at: int)
    requires ServedRun(servers, me, s, events) && Matches(servers[0], me, s)
    requires P.IsCurrent(P.After(s, events, None), h) && P.After(s, events, None).clock <= at
    requires h in Last(servers).cache && !Live(Last(servers).cache[h], at)
    ensures P.Earliest(P.After(s, events, None)).Some? && P.Earliest(P.After(s, events, None)).value <= at
  {
    RunRefines(servers, me, s, events);
    SweepsAtEnd(Last(servers), me, P.After(s, events, None), h, at);
  }
}
