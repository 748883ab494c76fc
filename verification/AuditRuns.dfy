/** Whole runs of the audit log: every interleaving of restarts, appends and
    compactions over any tenants, and the runs that break a chain. */
module AuditRuns {
  import opened Numbers
  import opened Ordering
  import opened Sequences
  import opened AuditRecord
  import opened AuditChain
  import opened AuditTable
  import opened AuditBackfill

  /** `Interrupted` is a pass that stops after deleting the first `k` of its rows. */
  datatype Event =
    | Restart
    | Append(draft: Row)
    | Compact(tenant: string, cutoff: int, id: string, now: int)
    | Interrupted(tenant: string, cutoff: int, k: nat)

  function Apply(rule: Rule, rows: seq<Row>, e: Event): seq<Row> {
    match e
    case Restart => Stamped(map[], map[], Walk(rows))
    case Append(draft) => Appended(rows, draft)
    case Compact(tenant, cutoff, id, now) => CompactedTable(rule, rows, tenant, cutoff, id, now).0
    case Interrupted(tenant, cutoff, k) => InterruptedTable(rows, tenant, cutoff, k)
  }

  function InterruptedTable(rows: seq<Row>, tenant: string, cutoff: int, k: nat): seq<Row> {
    var tomb := Selected(Chain(rows, tenant), cutoff);
    if tenant == "" || tomb == [] || tomb[0].sig == Unsigned || tomb[|tomb| - 1].sig == Unsigned then rows
    else Without(rows, Ids(tomb[..Min(k, |tomb|)]))
  }

  function Run(rule: Rule, rows: seq<Row>, events: seq<Event>): seq<Row>
    decreases events
  {
    if events == [] then rows else Run(rule, Apply(rule, rows, events[0]), events[1..])
  }

  /** What a caller can check before an event: an appended row does not pose as a
      compaction record; a compaction brings a fresh id, finds old rows it can
      bridge under the compactor's rule, and does not stop. */
  predicate Allowed(rule: Rule, rows: seq<Row>, e: Event) {
    match e
    case Restart => true
    case Append(draft) => !IsBridge(draft)
    case Compact(tenant, cutoff, id, now) =>
      tenant == "" ||
      (!HasId(rows, id) && if rule.OwnSignature? then Bridgeable(Chain(rows, tenant), cutoff)
        else Contiguous(Chain(rows, tenant), cutoff))
    case Interrupted(_, _, _) => false
  }

  predicate AllAllowed(rule: Rule, rows: seq<Row>, events: seq<Event>)
    decreases events
  {
    events == [] || (Allowed(rule, rows, events[0]) && AllAllowed(rule, Apply(rule, rows, events[0]), events[1..]))
  }

  /** The invariant: the primary key, distinct positive slots, and an intact chain per
      tenant. */
  ghost predicate Healthy(rows: seq<Row>) {
    && Keyed(rows) && Slotted(rows) && Positive(rows)
    && forall tenant :: Intact(Chain(rows, tenant))
  }

  predicate Positive(rows: seq<Row>) {
    forall i :: 0 <= i < |rows| ==> rows[i].seqNo > 0
  }

  /** A table from before the chain existed; the empty table is one. */
  predicate Legacy(rows: seq<Row>) {
    Keyed(rows) && forall r :: r in rows ==> r.sig == Unsigned && r.seqNo == 0 && !IsBridge(r)
  }

  lemma {:induction false} SlottedByTenant(rows: seq<Row>)
    requires forall tenant :: Slotted(ForTenant(rows, tenant))
    ensures Slotted(rows)
  {
    if rows != [] {
      var first, rest := rows[0], rows[1..];
      forall tenant ensures Slotted(ForTenant(rest, tenant)) {
        var q, p := ForTenant(rest, tenant), ForTenant(rows, tenant);
        assert Slotted(p);
        if first.tenant == tenant { assert forall i :: 0 <= i < |q| ==> q[i] == p[i + 1]; }
      }
      SlottedByTenant(rest);
      var p, q := ForTenant(rows, first.tenant), ForTenant(rest, first.tenant);
      assert Slotted(p) && p == [first] + q;
      forall j | 0 <= j < |rest| && rest[j].tenant == first.tenant ensures rest[j].seqNo != first.seqNo {
        ForTenantCount(rest, first.tenant, rest[j]);
        assert rest[j] in multiset(rest);
        assert rest[j] in multiset(q);
        var m :| 0 <= m < |q| && q[m] == rest[j];
        assert p[m + 1] == q[m] && p[0].tenant == p[m + 1].tenant;
      }
    }
  }

  /** The first start signs and numbers a legacy table into a healthy one. */
  lemma LegacyHealthy(rows: seq<Row>)
    requires Legacy(rows)
    ensures Healthy(Stamped(map[], map[], Walk(rows)))
  {
    var walk := Walk(rows);
    var after := Stamped(map[], map[], walk);
    WalkStrict(rows);
    StampedSameKeys(map[], map[], walk);
    assert Keyed(after);
    forall tenant ensures Intact(Chain(after, tenant)) { LegacyBackfillVerifies(rows, after, tenant); }
    forall tenant ensures Slotted(ForTenant(after, tenant)) && Positive(ForTenant(after, tenant)) {
      LegacySlots(rows, tenant);
    }
    SlottedByTenant(after);
    forall i | 0 <= i < |after| ensures after[i].seqNo > 0 {
      ForTenantCount(after, after[i].tenant, after[i]);
      assert after[i] in multiset(after);
      assert after[i] in multiset(ForTenant(after, after[i].tenant));
      assert Positive(ForTenant(after, after[i].tenant));
    }
  }

  lemma LegacySlots(rows: seq<Row>, tenant: string)
    requires Legacy(rows)
    ensures var q := ForTenant(Stamped(map[], map[], Walk(rows)), tenant); Slotted(q) && Positive(q)
  {
    WalkStrict(rows);
    StampedForTenant(map[], map[], Walk(rows), tenant);
    var walk := ForTenant(Walk(rows), tenant);
    forall i | 0 <= i < |walk| ensures walk[i].seqNo == 0 {
      ForTenantCount(Walk(rows), tenant, walk[i]);
      assert walk[i] in multiset(walk);
      assert walk[i] in multiset(rows);
    }
    StampedSlots(Unsigned, 0, walk);
  }

  lemma HealthyStamped(rows: seq<Row>)
    requires Healthy(rows)
    ensures forall r :: r in rows ==> !Unstamped(r)
  {
    forall r | r in rows ensures !Unstamped(r) {
      ChainRows(rows, r.tenant, r);
      GoodSigned(Unsigned, Chain(rows, r.tenant));
    }
  }

  /** Where every row is signed and numbered, starts change nothing a query could see. */
  lemma RestartSame(rows: seq<Row>)
    requires Keyed(rows) && Slotted(rows) && forall r :: r in rows ==> !Unstamped(r)
    ensures var after := Apply(OwnSignature, rows, Restart);
      multiset(after) == multiset(rows) && Keyed(after) && Slotted(after)
    ensures forall tenant :: Chain(Apply(OwnSignature, rows, Restart), tenant) == Chain(rows, tenant)
  {
    var after := Apply(OwnSignature, rows, Restart);
    BackfillFixed(rows);
    KeyedByCount(rows, after);
    SlottedByCount(rows, after);
    forall tenant ensures Chain(after, tenant) == Chain(rows, tenant) {
      SameRowsSameTenant(after, rows, tenant);
      ChainStrict(rows, tenant);
      OrderByKeepsElements(ForTenant(rows, tenant), SeqBefore);
      ChainIs(after, tenant, Chain(rows, tenant));
    }
  }

  /** Later starts leave a healthy table as it is. */
  lemma RestartHealthy(rows: seq<Row>)
    requires Healthy(rows)
    ensures multiset(Apply(OwnSignature, rows, Restart)) == multiset(rows)
    ensures Healthy(Apply(OwnSignature, rows, Restart))
  {
    var after := Apply(OwnSignature, rows, Restart);
    HealthyStamped(rows);
    RestartSame(rows);
    forall i | 0 <= i < |after| ensures after[i].seqNo > 0 { assert after[i] in multiset(rows); }
  }

  lemma AppendHealthy(rows: seq<Row>, draft: Row)
    requires Healthy(rows) && !IsBridge(draft)
    ensures Healthy(Appended(rows, draft))
  {
    AppendedKeyed(rows, draft);
    forall tenant ensures Intact(Chain(Appended(rows, draft), tenant)) {
      AppendedChain(rows, draft, tenant);
      if tenant == draft.tenant { AppendIntact(Chain(rows, tenant), draft); }
    }
    var chain := Chain(rows, draft.tenant);
    if chain != [] { ChainRows(rows, draft.tenant, chain[|chain| - 1]); }
  }

  lemma CompactHealthy(rule: Rule, rows: seq<Row>, tenant: string, cutoff: int, id: string, now: int)
    requires Healthy(rows) && Allowed(rule, rows, Compact(tenant, cutoff, id, now))
    ensures Healthy(Apply(rule, rows, Compact(tenant, cutoff, id, now)))
  {
    if tenant != "" {
      CompactedTableKeyed(rule, rows, tenant, cutoff, id, now);
      var chain := Chain(rows, tenant);
      var compacted := CompactedChain(rule, chain, tenant, cutoff, id, now);
      if rule.OwnSignature? {
        CompactExact(chain, tenant, cutoff, id, now);
      } else {
        CorrectedCompactExact(chain, tenant, cutoff, id, now);
      }
      VerdictIffGood(Unsigned, compacted, 0);
      CompactIntact(rule, chain, tenant, cutoff, id, now);
      forall other ensures Intact(Chain(CompactedTable(rule, rows, tenant, cutoff, id, now).0, other)) {
        CompactedTableChain(rule, rows, tenant, cutoff, id, now, other);
      }
      CompactedPositive(rule, rows, tenant, cutoff, id, now);
    }
  }

  lemma CompactedPositive(rule: Rule, rows: seq<Row>, tenant: string, cutoff: int, id: string, now: int)
    requires Keyed(rows) && Slotted(rows) && Positive(rows)
    ensures Positive(CompactedTable(rule, rows, tenant, cutoff, id, now).0)
  {
    var chain, left := Chain(rows, tenant), Survivors(rows, tenant, cutoff);
    SurvivorsFrom(rows, tenant, cutoff);
    forall i | 0 <= i < |left| ensures left[i].seqNo > 0 { assert left[i] in rows; }
    var tomb := Selected(chain, cutoff);
    if tomb != [] {
      SelectedIsOld(chain, cutoff);
      ChainRows(rows, tenant, tomb[0]);
    }
  }

  lemma ApplyHealthy(rule: Rule, rows: seq<Row>, e: Event)
    requires Healthy(rows) && Allowed(rule, rows, e)
    ensures Healthy(Apply(rule, rows, e))
  {
    match e
    case Restart => RestartHealthy(rows);
    case Append(draft) => AppendHealthy(rows, draft);
    case Compact(tenant, cutoff, id, now) => CompactHealthy(rule, rows, tenant, cutoff, id, now);
  }

  lemma EmptyHealthy()
    ensures Healthy([])
  {
  }

  lemma {:induction false} RunHealthy(rule: Rule, rows: seq<Row>, events: seq<Event>)
    requires Healthy(rows) && AllAllowed(rule, rows, events)
    ensures Healthy(Run(rule, rows, events))
    decreases events
  {
    if events != [] {
      ApplyHealthy(rule, rows, events[0]);
      RunHealthy(rule, Apply(rule, rows, events[0]), events[1..]);
    }
  }

  lemma RunFront(rule: Rule, rows: seq<Row>, e: Event, rest: seq<Event>)
    ensures Run(rule, rows, [e] + rest) == Run(rule, Apply(rule, rows, e), rest)
  {
  }

  /** Safety over every run: start on a legacy or empty table, then let restarts,
      appends and allowed compactions of any tenants interleave in any way. Each
      tenant's chain verifies with every row counted. */
  lemma EveryRunVerifies(rule: Rule, legacy: seq<Row>, events: seq<Event>, tenant: string)
    requires Legacy(legacy) && AllAllowed(rule, legacy, [Restart] + events)
    ensures var chain := Chain(Run(rule, legacy, [Restart] + events), tenant);
      Verdict(Unsigned, chain, 0) == Report(true, |chain|, |chain|, "", None)
  {
    var first := Apply(rule, legacy, Restart);
    LegacyHealthy(legacy);
    RunFront(rule, legacy, Restart, events);
    assert ([Restart] + events)[1..] == events;
    RunHealthy(rule, first, events);
    VerdictIffGood(Unsigned, Chain(Run(rule, first, events), tenant), 0);
  }

  /** The guard is exact: on a healthy table a compaction outside it leaves a chain
      that the verifier rejects. */
  lemma DisallowedCompactionFails(rows: seq<Row>, tenant: string, cutoff: int, id: string, now: int)
    requires Healthy(rows) && tenant != "" && !HasId(rows, id) && !Bridgeable(Chain(rows, tenant), cutoff)
    ensures !Verdict(Unsigned, Chain(Apply(OwnSignature, rows, Compact(tenant, cutoff, id, now)), tenant), 0).ok
  {
    CompactedTableChain(OwnSignature, rows, tenant, cutoff, id, now, tenant);
    CompactExact(Chain(rows, tenant), tenant, cutoff, id, now);
  }

  /** A pass that stops after deleting the first `k` of its rows and before inserting its
      record, exactly: the verifier accepts what is left if and only if nothing was deleted
      yet or nothing is left above the hole. A pass that takes a chain to its top and stops
      before the insert goes unnoticed. */
  lemma InterruptedExact(a: seq<Row>, b: seq<Row>, c: seq<Row>, k: nat)
    requires Intact(a + b + c) && k <= |b|
    ensures Good(Unsigned, a + b[k..] + c) <==> k == 0 || b[k..] + c == []
  {
    if k == 0 {
      assert b[0..] == b;
    } else {
      assert b == b[..k] + b[k..];
      assert a + b + c == a + b[..k] + (b[k..] + c) && a + b[k..] + c == a + (b[k..] + c);
      IntactParts(a + b[..k], b[k..] + c);
      IntactParts(a, b[..k]);
      RisingDeepens(Head(Unsigned, a), b[..k]);
      DeletionExact(a, b[..k], b[k..] + c);
    }
  }

  /** Where it is noticed: at the first row still there above the deleted ones. */
  lemma InterruptedCompactionCaught(a: seq<Row>, b: seq<Row>, c: seq<Row>, k: nat)
    requires Intact(a + b + c) && 1 <= k <= |b| && b[k..] + c != []
    ensures var v := Verdict(Unsigned, a + b[k..] + c, 0);
      !v.ok && v.firstBad == (b[k..] + c)[0].id && v.verified == |a|
  {
    var above := b[k..] + c;
    CutAgain(a, b, c, k);
    DeletionCaught(a, b[..k], above[0], above[1..]);
  }

  /** Running the pass again while some of its rows are left leaves a verified chain exactly
      when the pass was bridgeable in the first place. */
  lemma RerunExact(a: seq<Row>, b: seq<Row>, c: seq<Row>, k: nat, tenant: string, cutoff: int, id: string, now: int)
    requires Intact(a + b + c) && k < |b| && NoneOld(a, cutoff) && AllOld(b, cutoff) && NoneOld(c, cutoff)
    ensures Good(Unsigned, CompactedChain(OwnSignature, a + b[k..] + c, tenant, cutoff, id, now))
      <==> Bridgeable(a + b + c, cutoff)
  {
    assert b == b[..k] + b[k..];
    BridgeableParts(a, b, c, cutoff);
    RemnantExact(a, b[..k], b[k..], c, tenant, cutoff, id, now);
  }

  /** Once all of them are deleted, running it again does nothing, and with a row above the
      chain stays rejected. */
  lemma RerunTooLate(a: seq<Row>, b: seq<Row>, c: seq<Row>, tenant: string, cutoff: int, id: string, now: int)
    requires Intact(a + b + c) && b != [] && c != [] && NoneOld(a, cutoff) && NoneOld(c, cutoff)
    ensures CompactedChain(OwnSignature, a + c, tenant, cutoff, id, now) == a + c && !Good(Unsigned, a + c)
  {
    YoungTogether(a, c, cutoff);
    HoleRejected(a, b, c);
  }

  lemma YoungTogether(a: seq<Row>, c: seq<Row>, cutoff: int)
    requires NoneOld(a, cutoff) && NoneOld(c, cutoff)
    ensures !HasOld(a + c, cutoff)
  {
    NothingOld(a + c, cutoff);
  }

  lemma HoleRejected(a: seq<Row>, b: seq<Row>, c: seq<Row>)
    requires Intact(a + b + c) && b != [] && c != []
    ensures !Good(Unsigned, a + c)
  {
    IntactParts(a + b, c);
    IntactParts(a, b);
    RisingDeepens(Head(Unsigned, a), b);
    DeletionExact(a, b, c);
  }

  /** A later pass over the rows right above the hole closes it, exactly when it is
      bridgeable itself: from then on nothing tells of the deleted rows. */
  lemma LaterPassHides(a: seq<Row>, b: seq<Row>, d: seq<Row>, c: seq<Row>, tenant: string, cutoff: int, id: string,
                       now: int)
    requires Intact(a + (b + d) + c) && d != [] && NoneOld(a, cutoff) && AllOld(d, cutoff) && NoneOld(c, cutoff)
    ensures Good(Unsigned, CompactedChain(OwnSignature, a + d + c, tenant, cutoff, id, now))
      <==> Bridgeable(a + d + c, cutoff)
  {
    BridgeableParts(a, d, c, cutoff);
    RemnantExact(a, b, d, c, tenant, cutoff, id, now);
  }

  lemma CutAgain<T>(a: seq<T>, b: seq<T>, c: seq<T>, k: nat)
    requires k <= |b| && b[k..] + c != []
    ensures var above := b[k..] + c;
      a + b[..k] + ([above[0]] + above[1..]) == a + b + c && a + b[k..] + c == a + [above[0]] + above[1..]
  {
  }
}
