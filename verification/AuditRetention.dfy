/** Retention under a clock that never goes back: which passes keep the audit chains verified,
    over every run from a legacy table. */
module AuditRetention {
  import opened Ordering
  import opened Sequences
  import opened AuditRecord
  import opened AuditChain
  import opened AuditTable
  import opened AuditBackfill
  import opened AuditRuns

  // ---- The clock ----

  predicate NotBefore(t: int, e: Event) {
    match e
    case Restart => true
    case Append(draft) => t <= draft.createdAt
    case Compact(_, _, _, now) => t <= now
    case Interrupted(_, _, _) => true
  }

  /** The time read last once the event has happened. */
  function Tick(t: int, e: Event): int {
    match e
    case Restart => t
    case Append(draft) => draft.createdAt
    case Compact(_, _, _, now) => now
    case Interrupted(_, _, _) => t
  }

  /** Each append and each pass reads its time under the mutex, and the clock does not go back. */
  predicate Clocked(t: int, events: seq<Event>)
    decreases events
  {
    events == [] || (NotBefore(t, events[0]) && Clocked(Tick(t, events[0]), events[1..]))
  }

  function Clock(t: int, events: seq<Event>): int
    decreases events
  {
    if events == [] then t else Clock(Tick(t, events[0]), events[1..])
  }

  predicate UpTo(rows: seq<Row>, t: int) {
    forall r :: r in rows ==> r.createdAt <= t
  }

  // ---- The shape of a chain ----

  predicate Ordinary(chain: seq<Row>) {
    Chronological(chain) && NoBridges(chain)
  }

  /** Rows in the order of their times, with at most one compaction record, at the bottom. */
  predicate Shape(chain: seq<Row>) {
    Ordinary(chain) || (chain != [] && IsBridge(chain[0]) && Ordinary(chain[1..]))
  }

  /** What is to be checked before a pass: a record at the bottom and the row above it are both
      old or both young. */
  predicate OneSide(chain: seq<Row>, cutoff: int) {
    chain == [] || !IsBridge(chain[0]) || |chain| == 1 || (Old(chain[0], cutoff) <==> Old(chain[1], cutoff))
  }

  lemma OrdinaryAbove(rest: seq<Row>, b: seq<Row>, c: seq<Row>)
    requires Ordinary(rest) && rest == b + c
    ensures Ordinary(c)
  {
    forall k | 0 <= k < |c| ensures c[k] == rest[|b| + k] {
    }
  }

  lemma RecordTaken(cr: Row, rest: seq<Row>, cutoff: int)
    requires Old(cr, cutoff) && Ordinary(rest)
    ensures HasOld([cr] + rest, cutoff)
    ensures Below([cr] + rest, cutoff) == [] && Ordinary(Above([cr] + rest, cutoff))
  {
    var b, c := ChronologicalCut(rest, cutoff);
    OrdinaryAbove(rest, b, c);
    BottomTaken(cr, b, c, cutoff);
    Regroup([cr], b, c);
  }

  lemma BottomTaken(cr: Row, b: seq<Row>, c: seq<Row>, cutoff: int)
    requires Old(cr, cutoff) && AllOld(b, cutoff) && NoneOld(c, cutoff)
    ensures HasOld([cr] + b + c, cutoff)
    ensures Below([cr] + b + c, cutoff) == [] && Above([cr] + b + c, cutoff) == c
  {
    var taken := [cr] + b;
    assert taken[|b|] == if b == [] then cr else b[|b| - 1];
    CutIs([], taken, c, cutoff);
    assert [] + taken + c == [cr] + b + c;
  }

  lemma NoneTaken(cr: Row, rest: seq<Row>, cutoff: int)
    requires !Old(cr, cutoff) && Ordinary(rest) && (rest == [] || !Old(rest[0], cutoff))
    ensures !HasOld([cr] + rest, cutoff)
  {
    NothingOld([cr] + rest, cutoff);
  }

  lemma OrdinaryTaken(chain: seq<Row>, cutoff: int)
    requires Ordinary(chain) && HasOld(chain, cutoff)
    ensures Below(chain, cutoff) == [] && Ordinary(Above(chain, cutoff))
  {
    FirstCompactionBridgeable(chain, cutoff);
    CutParts(chain, cutoff);
    OrdinaryAbove(chain, Below(chain, cutoff) + Stretch(chain, cutoff), Above(chain, cutoff));
  }

  /** On such a chain that condition is the guard, and an allowed pass takes the chain's bottom. */
  lemma ShapeBridgeable(chain: seq<Row>, cutoff: int)
    requires Shape(chain)
    ensures Bridgeable(chain, cutoff) <==> OneSide(chain, cutoff)
    ensures OneSide(chain, cutoff) && HasOld(chain, cutoff) ==>
      Below(chain, cutoff) == [] && Ordinary(Above(chain, cutoff))
  {
    if Ordinary(chain) {
      FirstCompactionBridgeable(chain, cutoff);
      if HasOld(chain, cutoff) { OrdinaryTaken(chain, cutoff); }
    } else {
      var cr, rest := chain[0], chain[1..];
      assert [cr] + rest == chain;
      SecondCompactionExact(cr, rest, cutoff);
      if Old(cr, cutoff) {
        RecordTaken(cr, rest, cutoff);
      } else if OneSide(chain, cutoff) {
        NoneTaken(cr, rest, cutoff);
      }
    }
  }

  /** The chain consists of a record of time `now` below the rows left. */
  predicate RecordUnder(chain: seq<Row>, now: int, left: seq<Row>) {
    chain != [] && IsBridge(chain[0]) && chain[0].createdAt == now && chain[1..] == left
  }

  /** One pass over a chain of that shape, exactly; when it takes rows it leaves its own record
      below the younger ones. */
  lemma PassOver(rows: seq<Row>, tenant: string, cutoff: int, id: string, now: int)
    requires Healthy(rows) && Shape(Chain(rows, tenant)) && tenant != "" && !HasId(rows, id)
    ensures var chain, after := Chain(rows, tenant), Apply(OwnSignature, rows, Compact(tenant, cutoff, id, now));
      && (Verdict(Unsigned, Chain(after, tenant), 0).ok <==> OneSide(chain, cutoff))
      && (OneSide(chain, cutoff) ==> Healthy(after))
      && (OneSide(chain, cutoff) && !HasOld(chain, cutoff) ==> Chain(after, tenant) == chain)
      && (OneSide(chain, cutoff) && HasOld(chain, cutoff) ==>
            RecordUnder(Chain(after, tenant), now, Above(chain, cutoff)))
  {
    var chain := Chain(rows, tenant);
    ShapeBridgeable(chain, cutoff);
    CompactedTableChain(OwnSignature, rows, tenant, cutoff, id, now, tenant);
    CompactExact(chain, tenant, cutoff, id, now);
    if OneSide(chain, cutoff) {
      CompactHealthy(OwnSignature, rows, tenant, cutoff, id, now);
      if HasOld(chain, cutoff) {
        var cr := PassLeaves(chain, tenant, cutoff, id, now);
        assert ([cr] + Above(chain, cutoff))[1..] == Above(chain, cutoff);
      }
    }
  }

  lemma PassLeaves(chain: seq<Row>, tenant: string, cutoff: int, id: string, now: int) returns (cr: Row)
    requires Shape(chain) && Bridgeable(chain, cutoff) && HasOld(chain, cutoff)
    ensures IsBridge(cr) && cr.createdAt == now
    ensures CompactedChain(OwnSignature, chain, tenant, cutoff, id, now) == [cr] + Above(chain, cutoff)
  {
    ShapeBridgeable(chain, cutoff);
    WholeStretch(OwnSignature, chain, tenant, cutoff, id, now);
    cr := BridgeRow(OwnSignature, [], Stretch(chain, cutoff), |Selected(chain, cutoff)|, tenant, cutoff, id, now);
    assert [] + [cr] == [cr];
  }

  // ---- Every clocked run keeps the shape ----

  /** Healthy, and every tenant's chain has the shape, with no time past `t`. */
  ghost predicate Regular(rows: seq<Row>, t: int) {
    Healthy(rows) && forall tenant :: Shape(Chain(rows, tenant)) && UpTo(Chain(rows, tenant), t)
  }

  lemma {:induction false} StampedTenantRows(h: Sig, n: int, walk: seq<Row>)
    ensures var chain := StampedTenant(h, n, walk);
      |chain| == |walk| && forall i :: 0 <= i < |walk| ==>
        chain[i].createdAt == walk[i].createdAt && chain[i].action == walk[i].action
    decreases walk
  {
    if walk != [] { StampedTenantRows(Next(Stamp(walk[0], h, n + 1)), n + 1, walk[1..]); }
  }

  /** The walk meets a tenant's rows in the order of their times. */
  lemma {:induction false} WalkChronological(walk: seq<Row>, tenant: string)
    requires forall i, j :: 0 <= i < j < |walk| ==> WalkBefore(walk[i], walk[j])
    ensures Chronological(ForTenant(walk, tenant))
    ensures forall r :: r in ForTenant(walk, tenant) ==> r in walk && r.tenant == tenant
  {
    if walk != [] {
      WalkChronological(walk[1..], tenant);
      var q := ForTenant(walk[1..], tenant);
      if walk[0].tenant == tenant {
        forall k | 0 <= k < |q| ensures walk[0].createdAt <= q[k].createdAt {
          assert q[k] in q;
          TextBeforeIrreflexive(tenant);
        }
      }
    }
  }

  /** The first start of all leaves the rows of a legacy table in the order of their times. */
  lemma LegacyRegular(rows: seq<Row>, t: int)
    requires Legacy(rows) && UpTo(rows, t)
    ensures Regular(Apply(OwnSignature, rows, Restart), t)
    ensures forall tenant :: NoBridges(Chain(Apply(OwnSignature, rows, Restart), tenant))
  {
    LegacyHealthy(rows);
    forall tenant ensures Ordinary(Chain(Apply(OwnSignature, rows, Restart), tenant))
        && UpTo(Chain(Apply(OwnSignature, rows, Restart), tenant), t)
    {
      LegacyOrdinary(rows, t, tenant);
    }
  }

  lemma LegacyOrdinary(rows: seq<Row>, t: int, tenant: string)
    requires Legacy(rows) && UpTo(rows, t)
    ensures var chain := Chain(Apply(OwnSignature, rows, Restart), tenant); Ordinary(chain) && UpTo(chain, t)
  {
    var mine := ForTenant(Walk(rows), tenant);
    WalkStrict(rows);
    WalkChronological(Walk(rows), tenant);
    forall r | r in mine ensures r.sig == Unsigned && r.seqNo == 0 && !IsBridge(r) && r.createdAt <= t {
      assert r in multiset(Walk(rows));
      assert r in rows;
    }
    BackfillExact(rows, Apply(OwnSignature, rows, Restart), tenant);
    StampedOrdinary(mine, t);
  }

  lemma StampedOrdinary(walk: seq<Row>, t: int)
    requires Ordinary(walk) && UpTo(walk, t)
    ensures Ordinary(StampedTenant(Unsigned, 0, walk)) && UpTo(StampedTenant(Unsigned, 0, walk), t)
  {
    var chain := StampedTenant(Unsigned, 0, walk);
    StampedTenantRows(Unsigned, 0, walk);
    forall i | 0 <= i < |chain| ensures !IsBridge(chain[i]) && chain[i].createdAt <= t { assert walk[i] in walk; }
  }

  /** A restart leaves every chain as it is. */
  lemma RestartChain(rows: seq<Row>, tenant: string)
    requires Healthy(rows)
    ensures Chain(Apply(OwnSignature, rows, Restart), tenant) == Chain(rows, tenant)
  {
    HealthyStamped(rows);
    RestartSame(rows);
  }

  lemma AppendShape(chain: seq<Row>, r: Row, t: int)
    requires Shape(chain) && UpTo(chain, t) && t <= r.createdAt && !IsBridge(r)
    ensures Shape(chain + [r]) && UpTo(chain + [r], r.createdAt)
  {
    if Ordinary(chain) {
      AppendOrdinary(chain, r, t);
    } else {
      AppendOrdinary(chain[1..], r, t);
      assert (chain + [r])[1..] == chain[1..] + [r];
    }
  }

  lemma AppendOrdinary(chain: seq<Row>, r: Row, t: int)
    requires Ordinary(chain) && UpTo(chain, t) && t <= r.createdAt && !IsBridge(r)
    ensures Ordinary(chain + [r])
  {
  }

  lemma RecordShape(cr: Row, left: seq<Row>, t: int)
    requires IsBridge(cr) && Ordinary(left) && UpTo(left, t) && t <= cr.createdAt
    ensures Shape([cr] + left) && UpTo([cr] + left, cr.createdAt)
  {
    assert ([cr] + left)[1..] == left;
  }

  lemma UpToAbove(chain: seq<Row>, cutoff: int, t: int)
    requires UpTo(chain, t) && HasOld(chain, cutoff)
    ensures UpTo(Above(chain, cutoff), t)
  {
    CutParts(chain, cutoff);
    forall r | r in Above(chain, cutoff) ensures r in chain {
    }
  }

  lemma PassShape(chain: seq<Row>, tenant: string, cutoff: int, id: string, now: int, t: int)
    requires Shape(chain) && UpTo(chain, t) && t <= now && Bridgeable(chain, cutoff)
    ensures var after := CompactedChain(OwnSignature, chain, tenant, cutoff, id, now); Shape(after) && UpTo(after, now)
  {
    if HasOld(chain, cutoff) {
      var cr := PassLeaves(chain, tenant, cutoff, id, now);
      ShapeBridgeable(chain, cutoff);
      UpToAbove(chain, cutoff, t);
      RecordShape(cr, Above(chain, cutoff), t);
    }
  }

  lemma StepChain(rows: seq<Row>, t: int, e: Event, tenant: string)
    requires Healthy(rows) && Shape(Chain(rows, tenant)) && UpTo(Chain(rows, tenant), t)
    requires Allowed(OwnSignature, rows, e) && NotBefore(t, e)
    ensures var chain := Chain(Apply(OwnSignature, rows, e), tenant); Shape(chain) && UpTo(chain, Tick(t, e))
  {
    match e
    case Restart => RestartChain(rows, tenant);
    case Append(draft) =>
      AppendedChain(rows, draft, tenant);
      if tenant == draft.tenant { AppendShape(Chain(rows, tenant), NewRow(Chain(rows, tenant), draft), t); }
    case Compact(other, cutoff, id, now) =>
      if other != "" {
        CompactedTableChain(OwnSignature, rows, other, cutoff, id, now, tenant);
        if tenant == other { PassShape(Chain(rows, tenant), tenant, cutoff, id, now, t); }
      }
  }

  lemma {:induction false} RunRegular(rows: seq<Row>, t: int, events: seq<Event>)
    requires Regular(rows, t) && AllAllowed(OwnSignature, rows, events) && Clocked(t, events)
    ensures Regular(Run(OwnSignature, rows, events), Clock(t, events))
    decreases events
  {
    if events != [] {
      var e := events[0];
      ApplyHealthy(OwnSignature, rows, e);
      forall tenant ensures Shape(Chain(Apply(OwnSignature, rows, e), tenant))
          && UpTo(Chain(Apply(OwnSignature, rows, e), tenant), Tick(t, e))
      {
        StepChain(rows, t, e, tenant);
      }
      RunRegular(Apply(OwnSignature, rows, e), Tick(t, e), events[1..]);
    }
  }

  /** A start on a legacy table, appends, restarts and allowed passes of any tenants after it,
      and a clock that never goes back. */
  predicate Reached(legacy: seq<Row>, t: int, events: seq<Event>) {
    Legacy(legacy) && UpTo(legacy, t) && Clocked(t, events) && AllAllowed(OwnSignature, legacy, [Restart] + events)
  }

  function Table(legacy: seq<Row>, events: seq<Event>): seq<Row> {
    Run(OwnSignature, legacy, [Restart] + events)
  }

  lemma ReachedRegular(legacy: seq<Row>, t: int, events: seq<Event>)
    requires Reached(legacy, t, events)
    ensures Regular(Table(legacy, events), Clock(t, events))
  {
    LegacyRegular(legacy, t);
    RunFront(OwnSignature, legacy, Restart, events);
    assert ([Restart] + events)[1..] == events;
    RunRegular(Apply(OwnSignature, legacy, Restart), t, events);
  }

  /** Every pass of every run, exactly: whatever passes of whatever tenants came before, the
      next one leaves a verified chain if and only if the chain is empty, starts with no
      record, holds nothing above it, or has the record and the row above it on one side of
      the cutoff. */
  lemma EveryPassExact(legacy: seq<Row>, t: int, events: seq<Event>, tenant: string, cutoff: int, id: string, now: int)
    requires Reached(legacy, t, events) && tenant != "" && !HasId(Table(legacy, events), id)
    ensures var chain := Chain(Table(legacy, events), tenant);
      var after := Apply(OwnSignature, Table(legacy, events), Compact(tenant, cutoff, id, now));
      Verdict(Unsigned, Chain(after, tenant), 0).ok <==>
        chain == [] || !IsBridge(chain[0]) || |chain| == 1 || (Old(chain[0], cutoff) <==> Old(chain[1], cutoff))
  {
    ReachedRegular(legacy, t, events);
    PassOver(Table(legacy, events), tenant, cutoff, id, now);
  }

  // ---- First and second passes ----

  /** Events among which this tenant has no pass. */
  predicate NoPass(events: seq<Event>, tenant: string) {
    forall i :: 0 <= i < |events| ==> (events[i].Compact? || events[i].Interrupted? ==> events[i].tenant != tenant)
  }

  /** Without a pass a tenant's chain only grows, by rows that are no compaction records. */
  lemma {:induction false} ChainGrows(rows: seq<Row>, events: seq<Event>, tenant: string) returns (added: seq<Row>)
    requires Healthy(rows) && AllAllowed(OwnSignature, rows, events) && NoPass(events, tenant)
    ensures Chain(Run(OwnSignature, rows, events), tenant) == Chain(rows, tenant) + added && NoBridges(added)
    ensures events == [] ==> added == []
    decreases events
  {
    added := [];
    if events == [] {
      assert Chain(rows, tenant) + [] == Chain(rows, tenant);
    } else {
      var e, rest := events[0], events[1..];
      var next := Apply(OwnSignature, rows, e);
      ApplyHealthy(OwnSignature, rows, e);
      var first := ChainGrowsOnce(rows, e, tenant);
      forall i | 0 <= i < |rest| ensures rest[i].Compact? ==> rest[i].tenant != tenant {
        assert rest[i] == events[i + 1];
      }
      var more := ChainGrows(next, rest, tenant);
      added := first + more;
      Regroup(Chain(rows, tenant), first, more);
    }
  }

  lemma ChainGrowsOnce(rows: seq<Row>, e: Event, tenant: string) returns (added: seq<Row>)
    requires Healthy(rows) && Allowed(OwnSignature, rows, e) && (e.Compact? ==> e.tenant != tenant)
    ensures Chain(Apply(OwnSignature, rows, e), tenant) == Chain(rows, tenant) + added && NoBridges(added)
  {
    added := [];
    assert Chain(rows, tenant) + [] == Chain(rows, tenant);
    match e
    case Restart => RestartChain(rows, tenant);
    case Append(draft) =>
      AppendedChain(rows, draft, tenant);
      if tenant == draft.tenant && !HasId(rows, draft.id) { added := [NewRow(Chain(rows, tenant), draft)]; }
    case Compact(other, cutoff, id, now) =>
      if other != "" { CompactedTableChain(OwnSignature, rows, other, cutoff, id, now, tenant); }
  }

  lemma {:induction false} RunJoin(rows: seq<Row>, a: seq<Event>, b: seq<Event>)
    ensures Run(OwnSignature, rows, a + b) == Run(OwnSignature, Run(OwnSignature, rows, a), b)
    ensures AllAllowed(OwnSignature, rows, a + b) <==>
      AllAllowed(OwnSignature, rows, a) && AllAllowed(OwnSignature, Run(OwnSignature, rows, a), b)
    decreases a
  {
    if a == [] {
      assert [] + b == b;
    } else {
      assert (a + b)[0] == a[0] && (a + b)[1..] == a[1..] + b;
      RunJoin(Apply(OwnSignature, rows, a[0]), a[1..], b);
    }
  }

  lemma {:induction false} ClockJoin(t: int, a: seq<Event>, b: seq<Event>)
    ensures Clocked(t, a + b) <==> Clocked(t, a) && Clocked(Clock(t, a), b)
    decreases a
  {
    if a == [] {
      assert [] + b == b;
    } else {
      assert (a + b)[0] == a[0] && (a + b)[1..] == a[1..] + b;
      ClockJoin(Tick(t, a[0]), a[1..], b);
    }
  }

  /** A run may be cut anywhere. */
  lemma ReachedParts(legacy: seq<Row>, t: int, a: seq<Event>, b: seq<Event>)
    requires Reached(legacy, t, a + b)
    ensures Reached(legacy, t, a) && AllAllowed(OwnSignature, Table(legacy, a), b)
    ensures Table(legacy, a + b) == Run(OwnSignature, Table(legacy, a), b)
  {
    ClockJoin(t, a, b);
    RunJoin(legacy, [Restart] + a, b);
    ConsConcat(Restart, a, b);
  }

  lemma NoPassNoRecord(legacy: seq<Row>, t: int, events: seq<Event>, tenant: string)
    requires Reached(legacy, t, events) && NoPass(events, tenant)
    ensures NoBridges(Chain(Table(legacy, events), tenant))
  {
    var first := Apply(OwnSignature, legacy, Restart);
    LegacyRegular(legacy, t);
    RunFront(OwnSignature, legacy, Restart, events);
    assert ([Restart] + events)[1..] == events;
    var added := ChainGrows(first, events, tenant);
    assert NoBridges(Chain(first, tenant));
  }

  /** A tenant's first pass is always allowed, whatever went before it: it takes the bottom of
      the chain and leaves its record there. */
  lemma FirstPass(legacy: seq<Row>, t: int, events: seq<Event>, tenant: string, cutoff: int, id: string, now: int)
    requires Reached(legacy, t, events) && NoPass(events, tenant)
    requires tenant != "" && !HasId(Table(legacy, events), id)
    ensures var chain := Chain(Table(legacy, events), tenant);
      var after := Apply(OwnSignature, Table(legacy, events), Compact(tenant, cutoff, id, now));
      && Allowed(OwnSignature, Table(legacy, events), Compact(tenant, cutoff, id, now))
      && Verdict(Unsigned, Chain(after, tenant), 0).ok
      && if HasOld(chain, cutoff)
         then RecordUnder(Chain(after, tenant), now, Above(chain, cutoff))
         else Chain(after, tenant) == chain
  {
    ReachedRegular(legacy, t, events);
    NoPassNoRecord(legacy, t, events, tenant);
    PassOver(Table(legacy, events), tenant, cutoff, id, now);
    ShapeBridgeable(Chain(Table(legacy, events), tenant), cutoff);
    assert forall r :: r in Chain(Table(legacy, events), tenant) ==> !IsBridge(r);
  }

  lemma ExtendTail<T>(s: seq<T>, t: seq<T>)
    requires s != []
    ensures (s + t)[0] == s[0] && (s + t)[1..] == s[1..] + t && (t == [] ==> s + t == s)
  {
  }

  /** Two passes of one tenant with anything allowed before and between them, exactly. If the
      first takes rows, at time `now`, its record is the bottom of the chain from then on; the
      second pass leaves a verified chain if and only if that record and the row above it, when
      there is one, are on the same side of its cutoff. */
  lemma PassesExact(legacy: seq<Row>, t: int, events: seq<Event>, tenant: string, cutoff: int, id: string, now: int,
                    between: seq<Event>, cutoff': int, id': string, now': int)
    requires tenant != "" && !HasId(Table(legacy, events + ([Compact(tenant, cutoff, id, now)] + between)), id')
    requires Reached(legacy, t, events + ([Compact(tenant, cutoff, id, now)] + between))
    requires NoPass(events, tenant) && NoPass(between, tenant)
    requires HasOld(Chain(Table(legacy, events), tenant), cutoff)
    ensures var left := Above(Chain(Table(legacy, events), tenant), cutoff);
      var rows := Table(legacy, events + ([Compact(tenant, cutoff, id, now)] + between));
      var chain := Chain(rows, tenant);
      && chain != [] && IsBridge(chain[0]) && chain[0].createdAt == now && left <= chain[1..]
      && (between == [] ==> chain[1..] == left)
      && var after := Apply(OwnSignature, rows, Compact(tenant, cutoff', id', now'));
      Verdict(Unsigned, Chain(after, tenant), 0).ok <==> |chain| == 1 || (now < cutoff' <==> Old(chain[1], cutoff'))
  {
    var pass := Compact(tenant, cutoff, id, now);
    ReachedParts(legacy, t, events, [pass] + between);
    var rows := Table(legacy, events);
    assert ([pass] + between)[0] == pass && ([pass] + between)[1..] == between;
    FirstPass(legacy, t, events, tenant, cutoff, id, now);
    ReachedRegular(legacy, t, events);
    CompactHealthy(OwnSignature, rows, tenant, cutoff, id, now);
    var added := ChainGrows(Apply(OwnSignature, rows, pass), between, tenant);
    ExtendTail(Chain(Apply(OwnSignature, rows, pass), tenant), added);
    EveryPassExact(legacy, t, events + ([pass] + between), tenant, cutoff', id', now');
  }

  // ---- Rows of an older binary ----

  lemma {:induction false} TenantSorted(walk: seq<Row>, tenant: string)
    requires StrictlySorted(walk, WalkBefore)
    ensures StrictlySorted(ForTenant(walk, tenant), WalkBefore)
    ensures forall r :: r in ForTenant(walk, tenant) ==> r in walk && r.tenant == tenant
  {
    if walk != [] {
      var rest := walk[1..];
      assert forall i, j :: 0 <= i < j < |rest| ==> rest[i] == walk[i + 1] && rest[j] == walk[j + 1];
      TenantSorted(rest, tenant);
      var q := ForTenant(rest, tenant);
      forall k | 0 <= k < |q| ensures WalkBefore(walk[0], q[k]) { assert q[k] in q; }
    }
  }

  lemma WalkOf(rows: seq<Row>, tenant: string)
    requires Keyed(rows)
    ensures var x := ForTenant(Walk(rows), tenant);
      && StrictlySorted(x, WalkBefore) && multiset(x) == multiset(ForTenant(rows, tenant))
      && Chronological(x) && forall r :: r in x ==> r in rows && r.tenant == tenant
  {
    WalkStrict(rows);
    TenantSorted(Walk(rows), tenant);
    WalkChronological(Walk(rows), tenant);
    SameRowsSameTenant(Walk(rows), rows, tenant);
    forall r | r in ForTenant(Walk(rows), tenant) ensures r in rows { assert r in multiset(Walk(rows)); }
  }

  /** Later rows come last in the walk. */
  lemma WalkJoin(rows: seq<Row>, late: seq<Row>, tenant: string, now: int)
    requires Keyed(rows + late) && Keyed(rows) && Keyed(late)
    requires UpTo(ForTenant(Walk(rows), tenant), now) && forall r :: r in late ==> now < r.createdAt
    ensures ForTenant(Walk(rows + late), tenant) == ForTenant(Walk(rows), tenant) + ForTenant(Walk(late), tenant)
  {
    var x, rs := ForTenant(Walk(rows), tenant), ForTenant(Walk(late), tenant);
    WalkOf(rows, tenant);
    WalkOf(late, tenant);
    WalkOf(rows + late, tenant);
    ForTenantConcat(rows, late, tenant);
    LaterLast(x, rs, tenant, now);
    WalkOrder();
    SortedUnique(ForTenant(Walk(rows + late), tenant), x + rs, WalkBefore);
  }

  lemma LaterLast(x: seq<Row>, rs: seq<Row>, tenant: string, now: int)
    requires StrictlySorted(x, WalkBefore) && StrictlySorted(rs, WalkBefore) && UpTo(x, now)
    requires forall r :: r in x + rs ==> r.tenant == tenant
    requires forall r :: r in rs ==> now < r.createdAt
    ensures StrictlySorted(x + rs, WalkBefore)
  {
    forall i, j | 0 <= i < |x| && 0 <= j < |rs| ensures WalkBefore(x[i], rs[j]) {
      assert x[i] in x && rs[j] in rs && x[i] in x + rs && rs[j] in x + rs;
    }
  }

  /** Above younger rows a record of a later time is walked last. */
  lemma RecordWalkedLast(x: seq<Row>, chain: seq<Row>, t: int)
    requires multiset(x) == multiset(chain) && Chronological(x) && |chain| > 1
    requires UpTo(chain[1..], t) && t < chain[0].createdAt
    ensures x != [] && Last(x) == chain[0] && Last(x) != Last(chain)
  {
    assert chain == [chain[0]] + chain[1..];
    assert chain[0] in multiset(x) && Last(chain) in chain[1..];
    var i :| 0 <= i < |x| && x[i] == chain[0];
    assert x[i].createdAt <= Last(x).createdAt;
    assert Last(x) in multiset(chain);
  }

  /** A binary from before the chain, started once more on the migrated table, inserts rows
      that carry neither signature nor slot. If a first pass has left rows by then, the next
      start signs the new ones over the pass's record, which the walk meets last, and the chain
      is rejected from then on. */
  lemma LateRowsBreak(legacy: seq<Row>, t: int, events: seq<Event>, tenant: string, cutoff: int, id: string, now: int,
                      late: seq<Row>)
    requires Reached(legacy, t, events) && NoPass(events, tenant) && Clock(t, events) < now
    requires tenant != "" && !HasId(Table(legacy, events), id)
    requires HasOld(Chain(Table(legacy, events), tenant), cutoff)
    requires Above(Chain(Table(legacy, events), tenant), cutoff) != []
    requires Late(late) && ForTenant(late, tenant) != [] && Keyed(late) && forall r :: r in late ==> now < r.createdAt
    requires Keyed(Apply(OwnSignature, Table(legacy, events), Compact(tenant, cutoff, id, now)) + late)
    ensures var rows := Apply(OwnSignature, Table(legacy, events), Compact(tenant, cutoff, id, now));
      && Verdict(Unsigned, Chain(rows, tenant), 0).ok
      && !Verdict(Unsigned, Chain(Apply(OwnSignature, rows + late, Restart), tenant), 0).ok
  {
    var before := Chain(Table(legacy, events), tenant);
    var rows := Apply(OwnSignature, Table(legacy, events), Compact(tenant, cutoff, id, now));
    FirstPass(legacy, t, events, tenant, cutoff, id, now);
    ReachedRegular(legacy, t, events);
    CompactHealthy(OwnSignature, Table(legacy, events), tenant, cutoff, id, now);
    UpToAbove(before, cutoff, Clock(t, events));
    LateOverRecord(rows, tenant, Clock(t, events), now, late);
  }

  lemma LateOverRecord(rows: seq<Row>, tenant: string, t: int, now: int, late: seq<Row>)
    requires Healthy(rows) && |Chain(rows, tenant)| > 1 && Chain(rows, tenant)[0].createdAt == now
    requires UpTo(Chain(rows, tenant)[1..], t) && t < now && ForTenant(late, tenant) != []
    requires Late(late) && Keyed(late) && Keyed(rows + late) && forall r :: r in late ==> now < r.createdAt
    ensures !Verdict(Unsigned, Chain(Apply(OwnSignature, rows + late, Restart), tenant), 0).ok
  {
    var x, rs, y := ForTenant(Walk(rows), tenant), ForTenant(Walk(late), tenant), Chain(rows, tenant);
    WalkOf(rows, tenant);
    WalkOf(late, tenant);
    ChainSorted(rows, tenant);
    ChainStrict(rows, tenant);
    HealthyStamped(rows);
    RecordWalkedLast(x, y, t);
    forall r | r in x ensures r.createdAt <= now { assert r in multiset(y); }
    WalkJoin(rows, late, tenant, now);
    forall i | 0 <= i < |x| ensures !Unstamped(x[i]) { assert x[i] in x; }
    assert |multiset(rs)| == |multiset(ForTenant(late, tenant))|;
    BackfillOntoChain(rows + late, Apply(OwnSignature, rows + late, Restart), tenant, x, y, rs);
  }

  // ---- The shortest failing runs ----

  lemma AppendOne(rows: seq<Row>, chain: seq<Row>, draft: Row) returns (r: Row)
    requires Healthy(rows) && !IsBridge(draft) && !HasId(rows, draft.id) && Chain(rows, draft.tenant) == chain
    ensures r.id == draft.id && r.createdAt == draft.createdAt && r.action == draft.action
    ensures var after := Apply(OwnSignature, rows, Append(draft));
      after == rows + [r] && Healthy(after) && Chain(after, draft.tenant) == chain + [r]
  {
    AppendHealthy(rows, draft);
    AppendedChain(rows, draft, draft.tenant);
    r := NewRow(chain, draft);
  }

  lemma CompactedIds(rule: Rule, rows: seq<Row>, tenant: string, cutoff: int, id: string, now: int)
    requires Keyed(rows) && Slotted(rows)
    ensures forall other ::
      HasId(CompactedTable(rule, rows, tenant, cutoff, id, now).0, other) ==> other == id || HasId(rows, other)
  {
    var left := Survivors(rows, tenant, cutoff);
    SurvivorsFrom(rows, tenant, cutoff);
    forall i | 0 <= i < |left| ensures HasId(rows, left[i].id) { assert left[i] in rows; }
  }

  lemma TwoAppends(a: Row, b: Row, rest: seq<Event>) returns (rows: seq<Row>, a': Row, b': Row)
    requires a.tenant == b.tenant && !IsBridge(a) && !IsBridge(b) && a.id != b.id
    ensures a'.createdAt == a.createdAt && a'.action == a.action
    ensures b'.createdAt == b.createdAt && b'.action == b.action
    ensures Run(OwnSignature, [], [Append(a), Append(b)] + rest) == Run(OwnSignature, rows, rest)
    ensures Healthy(rows) && Chain(rows, a.tenant) == [a', b']
    ensures forall other :: HasId(rows, other) ==> other == a.id || other == b.id
  {
    EmptyHealthy();
    assert Chain([], a.tenant) == [];
    a' := AppendOne([], [], a);
    assert [] + [a'] == [a'];
    b' := AppendOne([a'], [a'], b);
    assert [a'] + [b'] == [a', b'];
    rows := [a', b'];
    Regroup([Append(a)], [Append(b)], rest);
    assert [Append(a)] + [Append(b)] == [Append(a), Append(b)];
    RunFront(OwnSignature, [], Append(a), [Append(b)] + rest);
    RunFront(OwnSignature, [a'], Append(b), rest);
  }

  lemma TwoRows(a: Row, b: Row, cutoff: int)
    requires Old(a, cutoff) && !Old(b, cutoff)
    ensures HasOld([a, b], cutoff) && Above([a, b], cutoff) == [b] && Chronological([a, b])
  {
    CutIs([], [a], [b], cutoff);
    assert [] + [a] + [b] == [a, b];
  }

  /** A pass that finds a record under one row. */
  lemma RecordAndRow(rows: seq<Row>, tenant: string, stamp: int, b: Row, cutoff: int, id: string, now: int)
    requires Healthy(rows) && tenant != "" && !HasId(rows, id) && !IsBridge(b)
    requires RecordUnder(Chain(rows, tenant), stamp, [b])
    ensures var after := Apply(OwnSignature, rows, Compact(tenant, cutoff, id, now));
      Verdict(Unsigned, Chain(after, tenant), 0).ok <==> (stamp < cutoff <==> b.createdAt < cutoff)
  {
    var chain := Chain(rows, tenant);
    assert chain[1] == chain[1..][0] == b;
    PassOver(rows, tenant, cutoff, id, now);
  }

  lemma RunOne(rows: seq<Row>, e: Event)
    ensures Run(OwnSignature, rows, [e]) == Apply(OwnSignature, rows, e)
  {
    RunFront(OwnSignature, rows, e, []);
    assert [e] + [] == [e];
  }

  /** The shortest failing runs, from the empty table: one row that the first pass
      takes, one that it leaves, and a second pass whose cutoff lies between that row
      and the first pass's record, in either order. */
  lemma ShortestRuns(a: Row, b: Row, cutoff: int, id: string, now: int, cutoff': int, id': string, now': int)
    requires a.tenant == b.tenant != "" && !IsBridge(a) && !IsBridge(b) && a.createdAt < cutoff <= b.createdAt
    requires a.id != b.id && id !in {a.id, b.id} && id' !in {a.id, b.id, id}
    ensures var t := a.tenant;
      var events := [Append(a), Append(b)] + [Compact(t, cutoff, id, now), Compact(t, cutoff', id', now')];
      Verdict(Unsigned, Chain(Run(OwnSignature, [], events), t), 0).ok <==> (now < cutoff' <==> b.createdAt < cutoff')
  {
    var passes := [Compact(a.tenant, cutoff, id, now)] + [Compact(a.tenant, cutoff', id', now')];
    assert passes == [Compact(a.tenant, cutoff, id, now), Compact(a.tenant, cutoff', id', now')];
    var rows, a', b' := TwoAppends(a, b, passes);
    TwoRows(a', b', cutoff);
    TwoPasses(rows, a.tenant, b', cutoff, id, now, cutoff', id', now');
  }

  lemma TwoPasses(rows: seq<Row>, tenant: string, b: Row, cutoff: int, id: string, now: int, cutoff': int, id': string,
                  now': int)
    requires Healthy(rows) && tenant != "" && !HasId(rows, id) && !HasId(rows, id') && id != id'
    requires Ordinary(Chain(rows, tenant)) && HasOld(Chain(rows, tenant), cutoff)
    requires Above(Chain(rows, tenant), cutoff) == [b] && !IsBridge(b)
    ensures var events := [Compact(tenant, cutoff, id, now)] + [Compact(tenant, cutoff', id', now')];
      var after := Run(OwnSignature, rows, events);
      Verdict(Unsigned, Chain(after, tenant), 0).ok <==> (now < cutoff' <==> b.createdAt < cutoff')
  {
    var first, second := Compact(tenant, cutoff, id, now), Compact(tenant, cutoff', id', now');
    var after := Apply(OwnSignature, rows, first);
    OrdinaryOneSide(Chain(rows, tenant), cutoff);
    PassOver(rows, tenant, cutoff, id, now);
    CompactedIds(OwnSignature, rows, tenant, cutoff, id, now);
    RunFront(OwnSignature, rows, first, [second]);
    RunOne(after, second);
    RecordAndRow(after, tenant, now, b, cutoff', id', now');
  }

  lemma OrdinaryOneSide(chain: seq<Row>, cutoff: int)
    requires Ordinary(chain)
    ensures OneSide(chain, cutoff)
  {
    assert chain != [] ==> chain[0] in chain;
  }

  lemma IdleFirst(a: Row, cutoff: int, id: string, now: int, rest: seq<Event>) returns (rows: seq<Row>)
    requires a.tenant != "" && !IsBridge(a) && a.createdAt < cutoff && a.id != id
    ensures Healthy(rows) && RecordUnder(Chain(rows, a.tenant), now, [])
    ensures forall other :: HasId(rows, other) ==> other == id || other == a.id
    ensures Run(OwnSignature, [], [Append(a)] + ([Compact(a.tenant, cutoff, id, now)] + rest)) ==
      Run(OwnSignature, rows, rest)
  {
    var first := Compact(a.tenant, cutoff, id, now);
    EmptyHealthy();
    assert Chain([], a.tenant) == [];
    var a' := AppendOne([], [], a);
    assert [] + [a'] == [a'];
    OneRow(a', cutoff);
    PassOver([a'], a.tenant, cutoff, id, now);
    rows := Apply(OwnSignature, [a'], first);
    CompactedIds(OwnSignature, [a'], a.tenant, cutoff, id, now);
    RunFront(OwnSignature, [], Append(a), [first] + rest);
    RunFront(OwnSignature, [a'], first, rest);
  }

  lemma IdleSecond(rows: seq<Row>, b: Row, stamp: int, cutoff: int, id: string, now: int)
    requires Healthy(rows) && b.tenant != "" && RecordUnder(Chain(rows, b.tenant), stamp, []) && !IsBridge(b)
    requires !HasId(rows, b.id) && !HasId(rows, id) && id != b.id
    ensures var after := Run(OwnSignature, rows, [Append(b)] + [Compact(b.tenant, cutoff, id, now)]);
      Verdict(Unsigned, Chain(after, b.tenant), 0).ok <==> (stamp < cutoff <==> b.createdAt < cutoff)
  {
    var chain := Chain(rows, b.tenant);
    var b' := AppendOne(rows, chain, b);
    ExtendTail(chain, [b']);
    assert [] + [b'] == [b'];
    RunFront(OwnSignature, rows, Append(b), [Compact(b.tenant, cutoff, id, now)]);
    var grown := Apply(OwnSignature, rows, Append(b));
    RunOne(grown, Compact(b.tenant, cutoff, id, now));
    RecordAndRow(grown, b.tenant, stamp, b', cutoff, id, now);
  }

  /** A pass over a chain of one row, an append after it, and a second pass: rejected exactly
      when the second cutoff lies between the record and the appended row, in either order. */
  lemma IdleRuns(a: Row, b: Row, cutoff: int, id: string, now: int, cutoff': int, id': string, now': int)
    requires a.tenant == b.tenant != "" && !IsBridge(a) && !IsBridge(b) && a.createdAt < cutoff
    requires a.id != b.id && id !in {a.id, b.id} && id' !in {a.id, b.id, id}
    ensures var t := a.tenant;
      var events := [Append(a)] + ([Compact(t, cutoff, id, now)] + ([Append(b)] + [Compact(t, cutoff', id', now')]));
      Verdict(Unsigned, Chain(Run(OwnSignature, [], events), t), 0).ok <==> (now < cutoff' <==> b.createdAt < cutoff')
  {
    var rows := IdleFirst(a, cutoff, id, now, [Append(b)] + [Compact(a.tenant, cutoff', id', now')]);
    IdleSecond(rows, b, now, cutoff', id', now');
  }

  lemma OneRow(a: Row, cutoff: int)
    requires Old(a, cutoff)
    ensures HasOld([a], cutoff) && Above([a], cutoff) == []
  {
    CutIs([], [a], [], cutoff);
    assert [] + [a] + [] == [a];
  }

  /** A retention of eight days, passes on days 10, 11 and 23. Rows of days 1 and 2: the pass
      of day 10 bridges the first, the pass of day 11 reaches the second but not yet the
      record of day 10. A row of day 1 and one of day 20: the pass of day 10 leaves its record
      alone, the pass of day 23 reaches that record but not the row of day 20. */
  lemma RetentionExamples(a: Row, b: Row, c: Row)
    requires a.tenant == b.tenant == c.tenant == "default" && !IsBridge(a) && !IsBridge(b) && !IsBridge(c)
    requires a.id == "a" && b.id == "b" && c.id == "c" && a.createdAt == 1 && b.createdAt == 2 && c.createdAt == 20
    ensures !Verdict(Unsigned, Chain(Run(OwnSignature, [],
      [Append(a), Append(b)] + [Compact("default", 10 - 8, "x", 10), Compact("default", 11 - 8, "y", 11)]), "default"),
        0).ok
    ensures !Verdict(Unsigned, Chain(Run(OwnSignature, [],
      [Append(a)] + ([Compact("default", 10 - 8, "x", 10)] + ([Append(c)] + [Compact("default", 23 - 8, "y", 23)]))),
        "default"), 0).ok
  {
    ShortestRuns(a, b, 2, "x", 10, 3, "y", 11);
    IdleRuns(a, c, 2, "x", 10, 15, "y", 23);
  }
}
