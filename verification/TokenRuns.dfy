/** Runs of rotations, prunes and restarts over the token cache and table. */
module TokenRuns {
  import opened Options
  import opened AgentTokens

  /** `pending` holds the hashes a prune has taken from the cache and not yet from the table. */
  datatype State = State(cache: Cache, table: Table, pending: set<Hash>, clock: int)

  /** `saves` tells whether the transaction of a rotation commits; when it rolls back, the
      cache has moved all the same. */
  datatype Event =
    | Register(token: Hash, owner: Owner, at: int, prior: Option<Hash>, saves: bool)
    | PruneCache(at: int)
    | PruneRow(hash: Hash)
    | Restart

  predicate Possible(s: State, e: Event) {
    match e
    case Register(h, o, at, prior, saves) => s.clock <= at && 0 < at && (saves ==> PriorOf(s.table, h, o, prior))
    case PruneCache(at) => s.clock <= at
    case PruneRow(h) => h in s.pending
    case Restart => true
  }

  function Dead(c: Cache, now: int): set<Hash> {
    set g | g in c && !Live(c[g], now)
  }

  function Step(s: State, e: Event, dialect: Dialect): State {
    match e
    case Register(h, o, at, prior, saves) =>
      var table := if saves then RotatedTable(s.table, h, o, at, prior, dialect) else s.table;
      s.(cache := RotatedCache(s.cache, h, o, at), table := table, clock := at)
    case PruneCache(at) =>
      s.(cache := s.cache - Dead(s.cache, at), pending := s.pending + Dead(s.cache, at), clock := at)
    case PruneRow(h) => s.(table := s.table - {h}, pending := s.pending - {h})
    case Restart => s.(cache := Projection(s.table), pending := {})
  }

  /** The cache is the table, but for dead rows whose delete is still to come. */
  predicate Synced(s: State) {
    && (forall h :: h in s.cache ==> h in s.table && s.cache[h] == s.table[h].entry)
    && forall h :: h in s.table && h !in s.cache ==> h in s.pending && !Live(s.table[h].entry, s.clock)
  }

  /** A restart at this point authenticates the same tokens at every later time. */
  ghost predicate RestartTransparent(s: State) {
    forall h, t :: s.clock <= t ==> (Authenticates(s.cache, h, t) <==> Authenticates(Projection(s.table), h, t))
  }

  lemma SyncedIsTransparent(s: State)
    requires Synced(s)
    ensures RestartTransparent(s)
  {
  }

  /** Deleting the row of a hash that is in the cache again. */
  predicate Clobbers(s: State, e: Event) {
    e.PruneRow? && e.hash in s.cache
  }

  /** A rotation that is rolled back and changes the cache. */
  predicate RunsAhead(s: State, e: Event) {
    e.Register? && !e.saves && RotatedCache(s.cache, e.token, e.owner, e.at) != s.cache
  }

  /** Exactly the clobbering delete and the rotation that runs ahead of the table break the
      invariant. */
  lemma StepSynced(s: State, e: Event, dialect: Dialect)
    requires Synced(s) && Possible(s, e)
    ensures Synced(Step(s, e, dialect)) <==> !Clobbers(s, e) && !RunsAhead(s, e)
  {
    var u := Step(s, e, dialect);
    match e
    case Register(h, o, at, prior, saves) =>
      if saves {
        SavedStaysSynced(s, e, dialect);
      } else {
        RolledBack(s, e, dialect);
      }
    case PruneCache(at) =>
    case PruneRow(h) => if Clobbers(s, e) { assert h in u.cache && h !in u.table; }
    case Restart =>
  }

  lemma SavedStaysSynced(s: State, e: Event, dialect: Dialect)
    requires Synced(s) && Possible(s, e) && e.Register? && e.saves
    ensures Synced(Step(s, e, dialect))
  {
    var u := Step(s, e, dialect);
    forall g | g in u.table && g !in u.cache ensures g in u.pending && !Live(u.table[g].entry, u.clock) {
      assert g in s.table && g !in s.cache;
      DeadStaysDead(s.table[g].entry, e.owner, s.clock, e.at);
    }
  }

  lemma RolledBack(s: State, e: Event, dialect: Dialect)
    requires Synced(s) && Possible(s, e) && e.Register? && !e.saves
    ensures Synced(Step(s, e, dialect)) <==> !RunsAhead(s, e)
  {
    var u := Step(s, e, dialect);
    if Synced(u) {
      assert e.token in u.cache && e.token in s.table;
      assert u.cache[e.token] == s.table[e.token].entry;
      assert e.token in s.cache;
      assert u.cache.Keys == s.cache.Keys;
      assert forall g :: g in s.cache ==> u.cache[g] == s.cache[g];
      assert u.cache == s.cache;
    } else if !RunsAhead(s, e) {
      forall g | g in u.table && g !in u.cache ensures g in u.pending && !Live(u.table[g].entry, u.clock) {
        DeadStaysDead(s.table[g].entry, e.owner, s.clock, e.at);
      }
    }
  }

  lemma DeadStaysDead(e: Entry, o: Owner, now: int, later: int)
    requires !Live(e, now) && now <= later
    ensures !Live(RotatedEntry(e, o, later), later) && !Live(e, later)
  {
  }

  /** A clobbered token that still authenticates is lost at the next restart, and until
      then its owner has no row to prove possession of. */
  lemma ClobberedIsLost(s: State, e: Event, dialect: Dialect, t: int)
    requires Synced(s) && Possible(s, e) && Clobbers(s, e) && s.clock <= t && Authenticates(s.cache, e.hash, t)
    ensures var u := Step(s, e, dialect);
      Authenticates(u.cache, e.hash, t) && !Authenticates(Step(u, Restart, dialect).cache, e.hash, t) &&
        Possible(u, Restart) && !RestartTransparent(u)
  {
  }

  /** A hash is deleted once for each time it was taken from the cache. */
  lemma DeletesOnce(s: State, h: Hash, dialect: Dialect)
    requires Possible(s, PruneRow(h))
    ensures var u := Step(s, PruneRow(h), dialect); h !in u.table && !Possible(u, PruneRow(h))
  {
  }

  // ---- Runs ----

  function After(s: State, events: seq<Event>, dialect: Dialect): State
    decreases |events|
  {
    if events == [] then s else After(Step(s, events[0], dialect), events[1..], dialect)
  }

  predicate Runs(s: State, events: seq<Event>, dialect: Dialect)
    decreases |events|
  {
    events == [] || (Possible(s, events[0]) && Runs(Step(s, events[0], dialect), events[1..], dialect))
  }

  predicate NeverClobbers(s: State, events: seq<Event>, dialect: Dialect)
    decreases |events|
  {
    events == [] || (!Clobbers(s, events[0]) && NeverClobbers(Step(s, events[0], dialect), events[1..], dialect))
  }

  predicate NeverRunsAhead(s: State, events: seq<Event>, dialect: Dialect)
    decreases |events|
  {
    events == [] || (!RunsAhead(s, events[0]) && NeverRunsAhead(Step(s, events[0], dialect), events[1..], dialect))
  }

  /** Restart transparency over every run without such a delete or rotation. */
  lemma {:induction false} EveryRunTransparent(s: State, events: seq<Event>, dialect: Dialect)
    requires Synced(s) && Runs(s, events, dialect)
    requires NeverClobbers(s, events, dialect) && NeverRunsAhead(s, events, dialect)
    ensures Synced(After(s, events, dialect)) && RestartTransparent(After(s, events, dialect))
    decreases |events|
  {
    if events == [] {
      SyncedIsTransparent(s);
    } else {
      StepSynced(s, events[0], dialect);
      EveryRunTransparent(Step(s, events[0], dialect), events[1..], dialect);
    }
  }

  /** No token registered while its delete is pending: a condition on the events alone. */
  predicate Reregisters(s: State, e: Event) {
    e.Register? && e.token in s.pending
  }

  predicate NeverReregisters(s: State, events: seq<Event>, dialect: Dialect)
    decreases |events|
  {
    events == [] || (!Reregisters(s, events[0]) && NeverReregisters(Step(s, events[0], dialect), events[1..], dialect))
  }

  /** Without such a registration no delete ever clobbers. */
  lemma {:induction false} NoReregistrationNoClobber(s: State, events: seq<Event>, dialect: Dialect)
    requires s.pending !! s.cache.Keys && NeverReregisters(s, events, dialect) && Runs(s, events, dialect)
    ensures NeverClobbers(s, events, dialect)
    decreases |events|
  {
    if events != [] {
      NoReregistrationNoClobber(Step(s, events[0], dialect), events[1..], dialect);
    }
  }

  /** The interleaving that breaks it, for any token and owner: a token outlives its 90
      days, leaves the cache, is registered again while its row still proves possession,
      and only then loses that row. It serves until the next restart and is gone after it. */
  lemma PruneRace(h: Hash, o: Owner, start: int, dialect: Dialect)
    requires 0 < start
    ensures var s := State(map[], map[], {}, start);
      var events := RaceEvents(h, o, start);
      && Runs(s, events, dialect)
      && Remembers(After(s, events[..2], dialect).table, o, Bound(h, None))
      && var u := After(s, events, dialect);
        Authenticates(u.cache, h, u.clock) && !Authenticates(Step(u, Restart, dialect).cache, h, u.clock) &&
          Actives(u.table, o) == {}
  {
    var s0 := State(map[], map[], {}, start);
    var e := RaceEvents(h, o, start);
    var s1 := Step(s0, e[0], dialect);
    assert s1.table == map[h := Row(Entry(o, start + LIFETIME, 0), start, None, false)];
    assert s1.cache == map[h := Entry(o, start + LIFETIME, 0)];
    var s2 := Step(s1, e[1], dialect);
    assert Dead(s1.cache, start + LIFETIME + 1) == {h};
    assert Actives(s2.table, o) == {h};
    var s3 := Step(s2, e[2], dialect);
    assert s3.table.Keys == {h};
    var s4 := Step(s3, e[3], dialect);
    assert s4.table == map[];
    Unfold4(s0, e, s1, s2, s3, s4, dialect);
  }

  function RaceEvents(h: Hash, o: Owner, start: int): seq<Event> {
    [Register(h, o, start, None, true), PruneCache(start + LIFETIME + 1),
      Register(h, o, start + LIFETIME + 1, None, true), PruneRow(h)]
  }

  lemma Unfold4(s0: State, e: seq<Event>, s1: State, s2: State, s3: State, s4: State, dialect: Dialect)
    requires |e| == 4
    requires Possible(s0, e[0]) && s1 == Step(s0, e[0], dialect)
    requires Possible(s1, e[1]) && s2 == Step(s1, e[1], dialect)
    requires Possible(s2, e[2]) && s3 == Step(s2, e[2], dialect)
    requires Possible(s3, e[3]) && s4 == Step(s3, e[3], dialect)
    ensures Runs(s0, e, dialect) && After(s0, e, dialect) == s4 && After(s0, e[..2], dialect) == s2
  {
    assert e[1..][1..] == e[2..] && e[2..][1..] == e[3..] && e[3..][1..] == [];
    assert After(s3, e[3..], dialect) == s4 && Runs(s3, e[3..], dialect);
    assert After(s2, e[2..], dialect) == s4 && Runs(s2, e[2..], dialect);
    assert After(s1, e[1..], dialect) == s4 && Runs(s1, e[1..], dialect);
    assert e[..2][1..] == [e[1]] && [e[1]][1..] == [];
    assert After(s1, [e[1]], dialect) == s2;
  }

  // ---- One active token per owner, over runs ----

  predicate OneActiveRow(t: Table) {
    OneActive(Projection(t))
  }

  lemma StepOneActive(s: State, e: Event, dialect: Dialect)
    requires OneActive(s.cache) && OneActiveRow(s.table) && Possible(s, e)
    ensures OneActive(Step(s, e, dialect).cache) && OneActiveRow(Step(s, e, dialect).table)
  {
    match e
    case Register(h, o, at, prior, saves) =>
      RotationKeepsOneActive(s.cache, h, o, at);
      RotationCommutes(s.table, h, o, at, prior, dialect);
      RotationKeepsOneActive(Projection(s.table), h, o, at);
    case PruneCache(at) =>
    case PruneRow(h) => assert Projection(s.table - {h}) == Projection(s.table) - {h};
    case Restart =>
  }

  lemma {:induction false} EveryRunOneActive(s: State, events: seq<Event>, dialect: Dialect)
    requires OneActive(s.cache) && OneActiveRow(s.table) && Runs(s, events, dialect)
    ensures OneActive(After(s, events, dialect).cache) && OneActiveRow(After(s, events, dialect).table)
    decreases |events|
  {
    if events != [] {
      StepOneActive(s, events[0], dialect);
      EveryRunOneActive(Step(s, events[0], dialect), events[1..], dialect);
    }
  }

  // ---- Deadlines ----

  predicate NeverRegistered(events: seq<Event>, h: Hash) {
    forall i :: 0 <= i < |events| && events[i].Register? ==> events[i].token != h
  }

  /** The row of a cached token is never deleted under it. */
  predicate KeepsRow(s: State, events: seq<Event>, h: Hash, dialect: Dialect)
    decreases |events|
  {
    events == []
    || ((events[0] == PruneRow(h) ==> h !in s.cache) && KeepsRow(Step(s, events[0], dialect), events[1..], h, dialect))
  }

  /** A superseded token lives exactly to its deadline: through every rotation, rolled back or
      not, every prune and every restart that does not register it again or delete its row
      under it, it authenticates at a later time just when neither its expiry nor its deadline
      has passed. */
  lemma {:induction false} DeadlineHonoured(s: State, events: seq<Event>, h: Hash, e: Entry, t: int, dialect: Dialect)
    requires Runs(s, events, dialect) && KeepsRow(s, events, h, dialect) && NeverRegistered(events, h)
    requires e.supersededAt > 0 && Held(s, h, e)
    requires After(s, events, dialect).clock <= t
    ensures Authenticates(After(s, events, dialect).cache, h, t) <==> Live(e, t)
    decreases |events|
  {
    if events == [] {
      ClockHolds(s, h, e, t);
    } else {
      var u := Step(s, events[0], dialect);
      HeldStays(s, events[0], h, e, dialect);
      assert forall i :: 0 <= i < |events[1..]| ==> events[1..][i] == events[i + 1];
      DeadlineHonoured(u, events[1..], h, e, t, dialect);
    }
  }

  /** Cache and row hold the entry, or it is dead and the cache does not hold the hash. */
  predicate Held(s: State, h: Hash, e: Entry) {
    && (h in s.cache ==> h in s.table && s.cache[h] == e)
    && (h !in s.cache ==> !Live(e, s.clock))
    && (h in s.table ==> s.table[h].entry == e)
  }

  lemma ClockHolds(s: State, h: Hash, e: Entry, t: int)
    requires Held(s, h, e) && s.clock <= t
    ensures Authenticates(s.cache, h, t) <==> Live(e, t)
  {
  }

  lemma HeldStays(s: State, event: Event, h: Hash, e: Entry, dialect: Dialect)
    requires Possible(s, event) && (event == PruneRow(h) ==> h !in s.cache) && Held(s, h, e) && e.supersededAt > 0
    requires event.Register? ==> event.token != h
    ensures Held(Step(s, event, dialect), h, e)
  {
  }

  // ---- Rotations that roll back ----

  function AgedOnce(e: Entry, event: Event): Entry {
    if event.Register? then RotatedEntry(e, event.owner, event.at) else e
  }

  /** What the rotations among these events make of a cached entry. */
  function Aged(e: Entry, events: seq<Event>): Entry
    decreases |events|
  {
    if events == [] then e else Aged(AgedOnce(e, events[0]), events[1..])
  }

  /** In the cache only, as this entry, or dead. */
  predicate CachedOnly(s: State, h: Hash, e: Entry) {
    h !in s.table && (h in s.cache ==> s.cache[h] == e) && (h !in s.cache ==> !Live(e, s.clock))
  }

  lemma {:induction false} NowhereStays(s: State, events: seq<Event>, h: Hash, dialect: Dialect)
    requires h !in s.table && h !in s.cache && NeverRegistered(events, h) && Runs(s, events, dialect)
    ensures h !in After(s, events, dialect).table && h !in After(s, events, dialect).cache
    decreases |events|
  {
    if events != [] {
      assert forall i :: 0 <= i < |events[1..]| ==> events[1..][i] == events[i + 1];
      NowhereStays(Step(s, events[0], dialect), events[1..], h, dialect);
    }
  }

  lemma CachedOnlyStep(s: State, event: Event, h: Hash, e: Entry, dialect: Dialect)
    requires CachedOnly(s, h, e) && Possible(s, event) && event != Restart
    requires event.Register? ==> event.token != h
    ensures CachedOnly(Step(s, event, dialect), h, AgedOnce(e, event))
  {
  }

  lemma {:induction false} CachedOnlyRun(s: State, events: seq<Event>, h: Hash, e: Entry, t: int, dialect: Dialect)
    requires CachedOnly(s, h, e) && NeverRegistered(events, h) && Runs(s, events, dialect)
    requires After(s, events, dialect).clock <= t
    ensures h !in After(s, events, dialect).table
    ensures Authenticates(After(s, events, dialect).cache, h, t) <==> Restart !in events && Live(Aged(e, events), t)
    decreases |events|
  {
    if events != [] {
      var u := Step(s, events[0], dialect);
      assert events == [events[0]] + events[1..];
      assert forall i :: 0 <= i < |events[1..]| ==> events[1..][i] == events[i + 1];
      if events[0] == Restart {
        NowhereStays(u, events[1..], h, dialect);
      } else {
        CachedOnlyStep(s, events[0], h, e, dialect);
        CachedOnlyRun(u, events[1..], h, AgedOnce(e, events[0]), t, dialect);
        assert Restart in events <==> Restart in events[1..];
      }
    }
  }

  /** What runs ahead of the table, over every run that does not register it again: the new token
      never gets a row, and it authenticates exactly as long as the server has not restarted and
      the token is alive, its lifetime and the rotations since then considered. */
  lemma RunAheadIsLost(s: State, e: Event, events: seq<Event>, t: int, dialect: Dialect)
    requires Possible(s, e) && e.Register? && !e.saves && e.token !in s.table
    requires var u := Step(s, e, dialect);
      Runs(u, events, dialect) && NeverRegistered(events, e.token) && After(u, events, dialect).clock <= t
    ensures var v := After(Step(s, e, dialect), events, dialect);
      && e.token !in v.table
      && (Authenticates(v.cache, e.token, t) <==>
            Restart !in events && Live(Aged(Entry(e.owner, e.at + LIFETIME, 0), events), t))
  {
    CachedOnlyRun(Step(s, e, dialect), events, e.token, Entry(e.owner, e.at + LIFETIME, 0), t, dialect);
  }

  predicate NoneStored(events: seq<Event>, o: Owner) {
    forall i :: 0 <= i < |events| && events[i].Register? && events[i].saves ==> events[i].owner != o
  }

  /** A token whose row is active while the cache may have superseded it, not before this
      deadline, or let it go after it. */
  predicate Superseded(s: State, p: Hash, e: Entry, deadline: int) {
    && (p in s.table ==> s.table[p].entry == e)
    && (p in s.cache ==> s.cache[p].owner == e.owner && s.cache[p].expiresAt == e.expiresAt)
    && (p in s.cache ==> s.cache[p].supersededAt == 0 || deadline <= s.cache[p].supersededAt)
    && (p in s.pending ==> deadline < s.clock || Expired(e, s.clock))
  }

  lemma SupersededStep(s: State, event: Event, p: Hash, e: Entry, deadline: int, dialect: Dialect)
    requires Superseded(s, p, e, deadline) && Possible(s, event) && e.supersededAt == 0 && 0 < deadline
    requires deadline <= s.clock + SUPERSEDE_WINDOW
    requires event.Register? ==> event.token != p && (event.saves ==> event.owner != e.owner)
    ensures Superseded(Step(s, event, dialect), p, e, deadline) && s.clock <= Step(s, event, dialect).clock
    ensures p in Step(s, event, dialect).table <==> p in s.table && event != PruneRow(p)
    ensures event == PruneRow(p) ==> deadline < s.clock || Expired(e, s.clock)
  {
  }

  lemma {:induction false} SupersededRun(s: State, events: seq<Event>, p: Hash, e: Entry, deadline: int,
                                         dialect: Dialect)
    requires Superseded(s, p, e, deadline) && Runs(s, events, dialect) && e.supersededAt == 0 && 0 < deadline
    requires deadline <= s.clock + SUPERSEDE_WINDOW && NeverRegistered(events, p) && NoneStored(events, e.owner)
    ensures var v := After(s, events, dialect);
      && Superseded(v, p, e, deadline) && s.clock <= v.clock
      && (p in v.table <==> p in s.table && PruneRow(p) !in events)
      && (PruneRow(p) in events ==> deadline < v.clock || Expired(e, v.clock))
    decreases |events|
  {
    if events != [] {
      assert events == [events[0]] + events[1..];
      assert forall i :: 0 <= i < |events[1..]| ==> events[1..][i] == events[i + 1];
      SupersededStep(s, events[0], p, e, deadline, dialect);
      SupersededRun(Step(s, events[0], dialect), events[1..], p, e, deadline, dialect);
    }
  }

  /** The token that a rolled-back rotation replaced, over every run without another stored one:
      its row stays, and stays active for the next restart, exactly as long as the pruner has not
      deleted it, which it does not do within 60 seconds unless the token has expired. */
  lemma ReplacedRowExactly(s: State, e: Event, p: Hash, events: seq<Event>, dialect: Dialect)
    requires Synced(s) && Possible(s, e) && e.Register? && !e.saves && e.token != p
    requires p in s.cache && Active(s.cache[p], e.owner) && p !in s.pending
    requires var u := Step(s, e, dialect);
      Runs(u, events, dialect) && NeverRegistered(events, p) && NoneStored(events, e.owner)
    ensures var v := After(Step(s, e, dialect), events, dialect);
      && (p in v.table <==> PruneRow(p) !in events)
      && (p in v.table ==> Active(v.table[p].entry, e.owner))
      && (PruneRow(p) in events ==> e.at + 60 < v.clock || Expired(s.cache[p], v.clock))
  {
    SupersededRun(Step(s, e, dialect), events, p, s.cache[p], e.at + SUPERSEDE_WINDOW, dialect);
  }

  /** And that is what the pruner does: a minute later the owner has no active row at all, while
      the new token authenticates. */
  lemma RollbackPrunesRow(s: State, e: Event, p: Hash, dialect: Dialect)
    requires Synced(s) && Possible(s, e) && e.Register? && !e.saves && e.token !in s.table
    requires Actives(s.table, e.owner) == {p} && p in s.cache
    ensures var u := Step(s, e, dialect);
      var events := [PruneCache(e.at + 61), PruneRow(p)];
      && Runs(u, events, dialect) && Actives(After(u, events, dialect).table, e.owner) == {}
      && Authenticates(After(u, events, dialect).cache, e.token, e.at + 61)
  {
    assert p in Actives(s.table, e.owner);
    var u := Step(s, e, dialect);
    var swept := Step(u, PruneCache(e.at + 61), dialect);
    assert p in Dead(u.cache, e.at + 61);
    RunTwo(u, PruneCache(e.at + 61), PruneRow(p), dialect);
    assert Actives(swept.table - {p}, e.owner) == Actives(s.table, e.owner) - {p};
  }

  lemma RunTwo(s: State, a: Event, b: Event, dialect: Dialect)
    ensures After(s, [a, b], dialect) == Step(Step(s, a, dialect), b, dialect)
    ensures Runs(s, [a, b], dialect) <==> Possible(s, a) && Possible(Step(s, a, dialect), b)
  {
    RunOne(Step(s, a, dialect), b, dialect);
    assert [a, b][1..] == [b];
  }

  lemma RunOne(s: State, e: Event, dialect: Dialect)
    ensures After(s, [e], dialect) == Step(s, e, dialect) && (Runs(s, [e], dialect) <==> Possible(s, e))
  {
    assert [e][1..] == [];
  }

  /** A rotation, and then any run that neither registers the replaced token again nor deletes
      its row under it: as long as the grace branch would still take that token and it has not
      expired, it also authenticates; and once it is refused for having been superseded, the
      grace branch refuses it too. */
  lemma GraceWithinSupersede(s: State, rotation: Event, events: seq<Event>, device: Option<Device>, t: int,
                             dialect: Dialect)
    requires Synced(s) && rotation.Register? && rotation.saves && rotation.prior.Some? && Possible(s, rotation)
    requires rotation.prior.value in s.cache
    requires var p, u := rotation.prior.value, Step(s, rotation, dialect);
      Runs(u, events, dialect) && KeepsRow(u, events, p, dialect) && NeverRegistered(events, p)
      && After(u, events, dialect).clock <= t
    ensures var p := rotation.prior.value;
      var end := After(Step(s, rotation, dialect), events, dialect);
      var b := Rebound(Bound(p, None), rotation.token, rotation.at);
      && (Accepted(Judge(b, device, p, t)) && !Expired(s.table[p].entry, t) ==> Authenticates(end.cache, p, t))
      && (!Authenticates(end.cache, p, t) && !Expired(s.table[p].entry, t) ==> Judge(b, device, p, t) == Reject)
  {
    var p := rotation.prior.value;
    var u := Step(s, rotation, dialect);
    StepSynced(s, rotation, dialect);
    assert Active(s.table[p].entry, rotation.owner);
    var e := u.cache[p];
    assert e == s.table[p].entry.(supersededAt := rotation.at + 60);
    DeadlineHonoured(u, events, p, e, t, dialect);
  }
}
