/** Rejected chains: what appends, restarts, passes outside the guard and passes that stop half
    way do to them, over runs in which any of these may happen. */
module AuditFaults {
  import opened Numbers
  import opened Ordering
  import opened Sequences
  import opened AuditRecord
  import opened AuditChain
  import opened AuditTable
  import opened AuditBackfill
  import opened AuditRuns
  import opened AuditRetention
  import opened AuditStatements

  // ---- Every run keeps the table in order ----

  predicate WellFormed(r: Row) {
    r.seqNo > 0 && r.sig != Unsigned && (IsBridge(r) ==> EndSig(r.details) != Unsigned)
  }

  /** Keys and slots are distinct, and every row is signed and numbered. Chains may be rejected. */
  predicate Stored(rows: seq<Row>) {
    Keyed(rows) && Slotted(rows) && forall r :: r in rows ==> WellFormed(r)
  }

  /** All that an event has to bring: no appended row poses as a record, record ids are new. */
  predicate Fresh(rows: seq<Row>, e: Event) {
    match e
    case Append(draft) => !IsBridge(draft)
    case Compact(tenant, _, id, _) => tenant == "" || !HasId(rows, id)
    case _ => true
  }

  predicate AllFresh(rows: seq<Row>, events: seq<Event>)
    decreases events
  {
    events == [] || (Fresh(rows, events[0]) && AllFresh(Apply(OwnSignature, rows, events[0]), events[1..]))
  }

  lemma HealthyStored(rows: seq<Row>)
    requires Healthy(rows)
    ensures Stored(rows)
  {
    forall r | r in rows ensures WellFormed(r) {
      ChainRows(rows, r.tenant, r);
      GoodSigned(Unsigned, Chain(rows, r.tenant));
    }
  }

  lemma AppendStored(rows: seq<Row>, draft: Row)
    requires Stored(rows) && !IsBridge(draft)
    ensures Stored(Appended(rows, draft))
  {
    var chain := Chain(rows, draft.tenant);
    AppendedKeyed(rows, draft);
    if chain != [] {
      ChainRows(rows, draft.tenant, chain[|chain| - 1]);
      assert WellFormed(chain[|chain| - 1]);
    }
  }

  lemma PassStored(rows: seq<Row>, tenant: string, cutoff: int, id: string, now: int)
    requires Stored(rows) && !HasId(rows, id)
    ensures Stored(CompactedTable(OwnSignature, rows, tenant, cutoff, id, now).0)
  {
    var chain := Chain(rows, tenant);
    var tomb := Selected(chain, cutoff);
    CompactedTableKeyed(OwnSignature, rows, tenant, cutoff, id, now);
    SurvivorsFrom(rows, tenant, cutoff);
    if tomb != [] {
      SelectedIsOld(chain, cutoff);
      ChainRows(rows, tenant, tomb[0]);
      assert WellFormed(tomb[0]);
    }
  }

  lemma {:induction false} WithoutFrom(rows: seq<Row>, ids: set<string>)
    requires Keyed(rows) && Slotted(rows)
    ensures Keyed(Without(rows, ids)) && Slotted(Without(rows, ids))
    ensures forall r :: r in Without(rows, ids) ==> r in rows
  {
    if rows != [] {
      WithoutFrom(rows[1..], ids);
      var q := Without(rows[1..], ids);
      forall j | 0 <= j < |q|
        ensures q[j].id != rows[0].id && (q[j].tenant == rows[0].tenant ==> q[j].seqNo != rows[0].seqNo)
      {
        assert q[j] in rows[1..];
      }
    }
  }

  lemma StepStored(rows: seq<Row>, e: Event)
    requires Stored(rows) && Fresh(rows, e)
    ensures Stored(Apply(OwnSignature, rows, e))
  {
    match e
    case Restart =>
      var after := Apply(OwnSignature, rows, e);
      RestartSame(rows);
      forall r | r in after ensures WellFormed(r) { assert r in multiset(after); }
    case Append(draft) => AppendStored(rows, draft);
    case Compact(tenant, cutoff, id, now) => if tenant != "" { PassStored(rows, tenant, cutoff, id, now); }
    case Interrupted(tenant, cutoff, k) =>
      var tomb := Selected(Chain(rows, tenant), cutoff);
      WithoutFrom(rows, Ids(tomb[..Min(k, |tomb|)]));
  }

  lemma {:induction false} RunStored(rows: seq<Row>, events: seq<Event>)
    requires Stored(rows) && AllFresh(rows, events)
    ensures Stored(Run(OwnSignature, rows, events))
    decreases events
  {
    if events != [] {
      StepStored(rows, events[0]);
      RunStored(Apply(OwnSignature, rows, events[0]), events[1..]);
    }
  }

  // ---- A pass over any chain ----

  /** Whether a pass leaves a verified chain, told from what it does not take: the rows below
      its stretch are good and not topped by a record, and what is left from the stretch on is
      good over the stored signature of the last row taken. */
  predicate PassVerifies(chain: seq<Row>, cutoff: int) {
    if !HasOld(chain, cutoff) then Good(Unsigned, chain)
    else
      var a, b, c := Below(chain, cutoff), Stretch(chain, cutoff), Above(chain, cutoff);
      && Good(Unsigned, a) && (a == [] || !IsBridge(Last(a)))
      && Good(Last(b).sig, Kept(b, cutoff) + c)
  }

  lemma {:induction false} TopOfGood(h: Sig, a: seq<Row>)
    requires Good(h, a) && a != []
    ensures Last(a).sig == Head(h, a) <==> !IsBridge(Last(a))
    decreases a
  {
    if |a| == 1 {
      BridgeSigDeeper(h, a[0]);
    } else {
      TopOfGood(Next(a[0]), a[1..]);
    }
  }

  lemma AnyCompactionExact(chain: seq<Row>, tenant: string, cutoff: int, id: string, now: int)
    requires Signed(chain)
    ensures Good(Unsigned, CompactedChain(OwnSignature, chain, tenant, cutoff, id, now))
      <==> PassVerifies(chain, cutoff)
  {
    if HasOld(chain, cutoff) {
      var a, b, c := Below(chain, cutoff), Stretch(chain, cutoff), Above(chain, cutoff);
      CutParts(chain, cutoff);
      assert Last(b) in chain;
      var cr := BridgeRow(OwnSignature, a, b, |Selected(chain, cutoff)|, tenant, cutoff, id, now);
      RecordLinks(OwnSignature, a, b, |Selected(chain, cutoff)|, tenant, cutoff, id, now, Head(Unsigned, a));
      SplicedExact(a, cr, Kept(b, cutoff), c);
      if a != [] && Good(Unsigned, a) { TopOfGood(Unsigned, a); }
    }
  }

  lemma SplicedExact(a: seq<Row>, cr: Row, kept: seq<Row>, c: seq<Row>)
    ensures Good(Unsigned, a + [cr] + kept + c) <==>
      Good(Unsigned, a) && Links(Head(Unsigned, a), cr) && Good(Next(cr), kept + c)
  {
    assert a + [cr] + kept + c == a + ([cr] + (kept + c));
    GoodConcat(Unsigned, a, [cr] + (kept + c));
    Bottom(Head(Unsigned, a), cr, kept + c);
  }

  lemma StoredSigned(rows: seq<Row>, tenant: string)
    requires Stored(rows)
    ensures Signed(Chain(rows, tenant))
  {
    forall r | r in Chain(rows, tenant) ensures r.sig != Unsigned { ChainRows(rows, tenant, r); }
  }

  /** The next pass, exactly, whatever happened before: any run of starts, appends, passes inside
      and outside the guard and passes that stopped, from a legacy table. A rejected chain
      verifies again exactly when what the pass leaves untouched was in order. */
  lemma AnyPassExact(legacy: seq<Row>, events: seq<Event>, tenant: string, cutoff: int, id: string, now: int)
    requires Legacy(legacy) && AllFresh(Apply(OwnSignature, legacy, Restart), events)
    requires tenant != "" && !HasId(Table(legacy, events), id)
    ensures var rows := Table(legacy, events);
      var after := Apply(OwnSignature, rows, Compact(tenant, cutoff, id, now));
      Verdict(Unsigned, Chain(after, tenant), 0).ok <==> PassVerifies(Chain(rows, tenant), cutoff)
  {
    LegacyHealthy(legacy);
    HealthyStored(Apply(OwnSignature, legacy, Restart));
    RunFront(OwnSignature, legacy, Restart, events);
    RunStored(Apply(OwnSignature, legacy, Restart), events);
    StoredPassExact(Table(legacy, events), tenant, cutoff, id, now);
  }

  lemma StoredPassExact(rows: seq<Row>, tenant: string, cutoff: int, id: string, now: int)
    requires Stored(rows) && tenant != "" && !HasId(rows, id)
    ensures var after := Apply(OwnSignature, rows, Compact(tenant, cutoff, id, now));
      && (Verdict(Unsigned, Chain(after, tenant), 0).ok <==> PassVerifies(Chain(rows, tenant), cutoff))
      && Chain(after, tenant) == CompactedChain(OwnSignature, Chain(rows, tenant), tenant, cutoff, id, now)
  {
    StoredSigned(rows, tenant);
    SignedTableChain(OwnSignature, rows, tenant, cutoff, id, now, tenant);
    AnyCompactionExact(Chain(rows, tenant), tenant, cutoff, id, now);
    VerdictIffGood(Unsigned, CompactedChain(OwnSignature, Chain(rows, tenant), tenant, cutoff, id, now), 0);
  }

  // ---- Between passes ----

  /** Rows appended one after another, from the head that the row on top hands over. */
  predicate Appends(chain: seq<Row>, added: seq<Row>) {
    Good(LastHead(chain), added) && Rising(LastHead(chain), added) && NoBridges(added)
  }

  lemma AppendsJoin(chain: seq<Row>, first: seq<Row>, more: seq<Row>)
    requires Appends(chain, first) && Appends(chain + first, more)
    ensures Appends(chain, first + more)
  {
    HeadAfter(chain, first);
    GoodConcat(LastHead(chain), first, more);
    RisingConcat(LastHead(chain), first, more);
  }

  lemma HeadAfter(chain: seq<Row>, added: seq<Row>)
    ensures LastHead(chain + added) == Head(LastHead(chain), added)
  {
    if added == [] {
      assert chain + added == chain;
    } else {
      HeadOfLast(LastHead(chain), added);
      assert Last(chain + added) == Last(added);
    }
  }

  lemma OneAppends(chain: seq<Row>, draft: Row)
    requires !IsBridge(draft)
    ensures Appends(chain, [NewRow(chain, draft)])
  {
    var r := NewRow(chain, draft);
    SignLinks(LastHead(chain), draft.(seqNo := r.seqNo));
    BridgeSigDeeper(LastHead(chain), r);
    Bottom(LastHead(chain), r, []);
    assert [r] + [] == [r];
  }

  /** Times between these two, in order. */
  predicate InOrder(chain: seq<Row>, from: int, to: int) {
    && Chronological(chain) && from <= to
    && forall r :: r in chain ==> from <= r.createdAt <= to
  }

  lemma InOrderJoin(first: seq<Row>, more: seq<Row>, from: int, mid: int, to: int)
    requires InOrder(first, from, mid) && InOrder(more, mid, to)
    ensures InOrder(first + more, from, to)
  {
    forall i, j | 0 <= i < |first| && 0 <= j < |more| ensures first[i].createdAt <= more[j].createdAt {
      assert first[i] in first && more[j] in more;
    }
  }

  /** Without a pass of its own a tenant's chain only grows, whatever the others do. */
  lemma {:induction false} AnyChainGrows(rows: seq<Row>, events: seq<Event>, tenant: string, t: int)
    returns (added: seq<Row>)
    requires Stored(rows) && AllFresh(rows, events) && NoPass(events, tenant)
    ensures Chain(Run(OwnSignature, rows, events), tenant) == Chain(rows, tenant) + added
    ensures Appends(Chain(rows, tenant), added)
    ensures Clocked(t, events) ==> InOrder(added, t, Clock(t, events))
    decreases events
  {
    added := [];
    if events == [] {
      assert Chain(rows, tenant) + [] == Chain(rows, tenant);
    } else {
      var e := events[0];
      StepStored(rows, e);
      var first := AnyChainGrowsOnce(rows, e, tenant, t);
      assert forall i :: 0 <= i < |events[1..]| ==> events[1..][i] == events[i + 1];
      var more := AnyChainGrows(Apply(OwnSignature, rows, e), events[1..], tenant, Tick(t, e));
      added := first + more;
      AppendsJoin(Chain(rows, tenant), first, more);
      Regroup(Chain(rows, tenant), first, more);
      if Clocked(t, events) { InOrderJoin(first, more, t, Tick(t, e), Clock(t, events)); }
    }
  }

  lemma AnyChainGrowsOnce(rows: seq<Row>, e: Event, tenant: string, t: int) returns (added: seq<Row>)
    requires Stored(rows) && Fresh(rows, e) && (e.Compact? || e.Interrupted? ==> e.tenant != tenant)
    ensures Chain(Apply(OwnSignature, rows, e), tenant) == Chain(rows, tenant) + added
    ensures Appends(Chain(rows, tenant), added)
    ensures NotBefore(t, e) ==> InOrder(added, t, Tick(t, e))
  {
    added := [];
    assert Chain(rows, tenant) + [] == Chain(rows, tenant);
    match e
    case Restart => RestartSame(rows);
    case Append(draft) =>
      AppendedChain(rows, draft, tenant);
      if tenant == draft.tenant && !HasId(rows, draft.id) {
        added := [NewRow(Chain(rows, tenant), draft)];
        OneAppends(Chain(rows, tenant), draft);
      }
    case Compact(other, cutoff, id, now) =>
      if other != "" {
        StoredSigned(rows, other);
        SignedTableChain(OwnSignature, rows, other, cutoff, id, now, tenant);
      }
    case Interrupted(other, cutoff, k) => InterruptedOther(rows, other, cutoff, k, tenant);
  }

  lemma {:induction false} WithoutTenant(rows: seq<Row>, ids: set<string>, tenant: string)
    ensures ForTenant(Without(rows, ids), tenant) == Without(ForTenant(rows, tenant), ids)
  {
    if rows != [] { WithoutTenant(rows[1..], ids, tenant); }
  }

  lemma {:induction false} WithoutThese(rows: seq<Row>, ids: set<string>)
    requires forall r :: r in rows ==> r.id !in ids
    ensures Without(rows, ids) == rows
  {
    if rows != [] {
      assert forall r :: r in rows[1..] ==> r in rows;
      WithoutThese(rows[1..], ids);
      assert rows == [rows[0]] + rows[1..];
    }
  }

  lemma {:induction false} SelectedFrom(chain: seq<Row>, cutoff: int)
    ensures forall r :: r in Selected(chain, cutoff) ==> r in chain && Old(r, cutoff)
  {
    if chain != [] { SelectedFrom(chain[1..], cutoff); }
  }

  /** A stopped pass of another tenant deletes none of this one's rows. */
  lemma InterruptedOther(rows: seq<Row>, other: string, cutoff: int, k: nat, tenant: string)
    requires Keyed(rows) && other != tenant
    ensures Chain(InterruptedTable(rows, other, cutoff, k), tenant) == Chain(rows, tenant)
  {
    var tomb := Selected(Chain(rows, other), cutoff);
    var ids := Ids(tomb[..Min(k, |tomb|)]);
    SelectedFrom(Chain(rows, other), cutoff);
    WithoutTenant(rows, ids, tenant);
    forall r | r in ForTenant(rows, tenant) ensures r.id !in ids {
      ForTenantCount(rows, tenant, r);
      assert r in multiset(ForTenant(rows, tenant));
      assert r in multiset(rows);
      forall i | 0 <= i < |tomb| ensures tomb[i].id != r.id {
        assert tomb[i] in Selected(Chain(rows, other), cutoff);
        ChainRows(rows, other, tomb[i]);
        OtherKey(rows, r, tomb[i]);
      }
    }
    WithoutThese(ForTenant(rows, tenant), ids);
  }

  lemma OtherKey(rows: seq<Row>, r: Row, s: Row)
    requires Keyed(rows) && r in rows && s in rows && r != s
    ensures r.id != s.id
  {
  }

  /** No append, no restart and nothing that another tenant does changes a verdict: a rejected
      chain stays rejected until its own tenant's next pass, and a verified one verified. */
  lemma VerdictUntilPass(legacy: seq<Row>, before: seq<Event>, events: seq<Event>, tenant: string)
    requires Legacy(legacy) && AllFresh(Apply(OwnSignature, legacy, Restart), before)
    requires AllFresh(Table(legacy, before), events) && NoPass(events, tenant)
    ensures Verdict(Unsigned, Chain(Run(OwnSignature, Table(legacy, before), events), tenant), 0).ok
      == Verdict(Unsigned, Chain(Table(legacy, before), tenant), 0).ok
  {
    LegacyHealthy(legacy);
    HealthyStored(Apply(OwnSignature, legacy, Restart));
    RunFront(OwnSignature, legacy, Restart, before);
    RunStored(Apply(OwnSignature, legacy, Restart), before);
    var added := AnyChainGrows(Table(legacy, before), events, tenant, 0);
    AppendsKeep(Chain(Table(legacy, before), tenant), added);
    VerdictIffGood(Unsigned, Chain(Table(legacy, before), tenant), 0);
    VerdictIffGood(Unsigned, Chain(Table(legacy, before), tenant) + added, 0);
  }

  lemma AppendsKeep(chain: seq<Row>, added: seq<Row>)
    requires Appends(chain, added)
    ensures Good(Unsigned, chain + added) <==> Good(Unsigned, chain)
    ensures Intact(chain) ==> Intact(chain + added)
  {
    GoodConcat(Unsigned, chain, added);
    RisingConcat(Unsigned, chain, added);
    if chain != [] { HeadOfLast(Unsigned, chain); }
  }

  // ---- Passes that stop ----

  /** A chain without its first `k` old rows. */
  function DropOld(chain: seq<Row>, cutoff: int, k: nat): seq<Row> {
    if chain == [] || k == 0 then chain
    else if Old(chain[0], cutoff) then DropOld(chain[1..], cutoff, k - 1)
    else [chain[0]] + DropOld(chain[1..], cutoff, k)
  }

  lemma {:induction false} DropOldSorted(chain: seq<Row>, cutoff: int, k: nat)
    requires Ascending(chain)
    ensures Ascending(DropOld(chain, cutoff, k)) && forall r :: r in DropOld(chain, cutoff, k) ==> r in chain
  {
    if chain != [] && k > 0 {
      var rest := chain[1..];
      DropOldSorted(rest, cutoff, if Old(chain[0], cutoff) then k - 1 else k);
      var q := DropOld(rest, cutoff, if Old(chain[0], cutoff) then k - 1 else k);
      forall j | 0 <= j < |q| ensures chain[0].seqNo < q[j].seqNo {
        assert q[j] in rest;
      }
    }
  }

  lemma {:induction false} WithoutCount(rows: seq<Row>, ids: set<string>, r: Row)
    ensures multiset(Without(rows, ids))[r] == if r.id in ids then 0 else multiset(rows)[r]
  {
    if rows != [] {
      WithoutCount(rows[1..], ids, r);
      assert rows == [rows[0]] + rows[1..];
    }
  }

  lemma WithoutSameRows(p: seq<Row>, q: seq<Row>, ids: set<string>)
    requires multiset(p) == multiset(q)
    ensures multiset(Without(p, ids)) == multiset(Without(q, ids))
  {
    forall r ensures multiset(Without(p, ids))[r] == multiset(Without(q, ids))[r] {
      WithoutCount(p, ids, r);
      WithoutCount(q, ids, r);
    }
  }

  lemma {:induction false} WithoutMore(rows: seq<Row>, ids: set<string>, id: string)
    requires forall r :: r in rows ==> r.id != id
    ensures Without(rows, ids + {id}) == Without(rows, ids)
  {
    if rows != [] {
      assert forall r :: r in rows[1..] ==> r in rows;
      WithoutMore(rows[1..], ids, id);
    }
  }

  /** Deleting the first `k` selected rows by id. */
  lemma {:induction false} WithoutFirst(chain: seq<Row>, cutoff: int, k: nat)
    requires Keyed(chain)
    ensures var tomb := Selected(chain, cutoff);
      Without(chain, Ids(tomb[..Min(k, |tomb|)])) == DropOld(chain, cutoff, k)
  {
    var tomb := Selected(chain, cutoff);
    if chain == [] || k == 0 {
      WithoutThese(chain, Ids(tomb[..Min(k, |tomb|)]));
    } else {
      var r, rest := chain[0], chain[1..];
      var behind := Selected(rest, cutoff);
      assert forall i :: 0 <= i < |rest| ==> rest[i] == chain[i + 1];
      SelectedFrom(rest, cutoff);
      if Old(r, cutoff) {
        WithoutFirst(rest, cutoff, k - 1);
        var ids := Ids(behind[..Min(k - 1, |behind|)]);
        assert tomb[..Min(k, |tomb|)] == [r] + behind[..Min(k - 1, |behind|)];
        HeadId(r, behind[..Min(k - 1, |behind|)]);
        WithoutMore(rest, ids, r.id);
      } else {
        WithoutFirst(rest, cutoff, k);
        forall i | 0 <= i < |behind| ensures behind[i].id != r.id { assert behind[i] in rest; }
        assert tomb == behind && r.id !in Ids(tomb[..Min(k, |tomb|)]);
      }
    }
  }

  lemma HeadId(r: Row, rest: seq<Row>)
    ensures Ids([r] + rest) == Ids(rest) + {r.id}
  {
    forall id ensures id in Ids([r] + rest) <==> id in Ids(rest) + {r.id} {
      if HasId(rest, id) {
        var i :| 0 <= i < |rest| && rest[i].id == id;
        assert ([r] + rest)[i + 1].id == id;
      }
      if id == r.id { assert ([r] + rest)[0].id == id; }
    }
  }

  lemma ChainKeyed(rows: seq<Row>, tenant: string)
    requires Keyed(rows) && Slotted(rows)
    ensures Keyed(Chain(rows, tenant))
  {
    var chain := Chain(rows, tenant);
    ChainStrict(rows, tenant);
    forall i, j | 0 <= i < j < |chain| ensures chain[i].id != chain[j].id {
      ChainRows(rows, tenant, chain[i]);
      ChainRows(rows, tenant, chain[j]);
      assert chain[i].seqNo < chain[j].seqNo;
      OtherKey(rows, chain[i], chain[j]);
    }
  }

  lemma InterruptedChain(rows: seq<Row>, tenant: string, cutoff: int, k: nat)
    requires Stored(rows) && tenant != ""
    ensures Chain(InterruptedTable(rows, tenant, cutoff, k), tenant) == DropOld(Chain(rows, tenant), cutoff, k)
  {
    var chain := Chain(rows, tenant);
    var tomb := Selected(chain, cutoff);
    var ids := Ids(tomb[..Min(k, |tomb|)]);
    ChainKeyed(rows, tenant);
    WithoutFirst(chain, cutoff, k);
    SelectedFrom(chain, cutoff);
    if tomb == [] {
      WithoutThese(chain, ids);
    } else {
      StoredSigned(rows, tenant);
      assert tomb[0] in chain && tomb[|tomb| - 1] in chain;
      WithoutTenant(rows, ids, tenant);
      OrderByKeepsElements(ForTenant(rows, tenant), SeqBefore);
      WithoutSameRows(ForTenant(rows, tenant), chain, ids);
      ChainStrict(rows, tenant);
      DropOldSorted(chain, cutoff, k);
      ChainIs(Without(rows, ids), tenant, DropOld(chain, cutoff, k));
    }
  }

  lemma {:induction false} DropOldParts(a: seq<Row>, b: seq<Row>, c: seq<Row>, cutoff: int, k: nat)
    requires NoneOld(a, cutoff) && AllOld(b, cutoff) && NoneOld(c, cutoff) && k <= |b|
    ensures DropOld(a + b + c, cutoff, k) == a + b[k..] + c
    decreases |a| + |b|
  {
    if k == 0 {
      assert b[0..] == b;
    } else if a != [] {
      assert (a + b + c)[0] == a[0] && (a + b + c)[1..] == a[1..] + b + c;
      DropOldParts(a[1..], b, c, cutoff, k);
      assert [a[0]] + (a[1..] + b[k..] + c) == a + b[k..] + c;
    } else {
      assert (a + b + c)[0] == b[0] && (a + b + c)[1..] == a + b[1..] + c;
      DropOldParts(a, b[1..], c, cutoff, k - 1);
      assert b[1..][k - 1..] == b[k..];
    }
  }

  // ---- Runs with a stopped pass ----

  /** On a chain of the clocked shape the old rows are always one stretch. */
  lemma ShapeContiguous(chain: seq<Row>, cutoff: int)
    requires Shape(chain) && HasOld(chain, cutoff)
    ensures AllOld(Stretch(chain, cutoff), cutoff)
    ensures Below(chain, cutoff) == [] || (Below(chain, cutoff) == [chain[0]] && IsBridge(chain[0]))
  {
    if Ordinary(chain) {
      FirstCompactionBridgeable(chain, cutoff);
    } else {
      var cr, rest := chain[0], chain[1..];
      assert chain == [cr] + rest;
      var b, c := ChronologicalCut(rest, cutoff);
      if Old(cr, cutoff) {
        Regroup([cr], b, c);
        assert AllOld([cr] + b, cutoff) && [] + ([cr] + b) + c == [cr] + b + c;
        StretchOf([], [cr] + b, c, cutoff);
      } else {
        NothingOld([cr] + rest, cutoff);
        assert b != [];
        Regroup([cr], b, c);
        StretchOf([cr], b, c, cutoff);
      }
    }
  }

  lemma StretchOf(a: seq<Row>, b: seq<Row>, c: seq<Row>, cutoff: int)
    requires NoneOld(a, cutoff) && AllOld(b, cutoff) && NoneOld(c, cutoff) && b != []
    ensures var chain := a + b + c;
      HasOld(chain, cutoff) && Below(chain, cutoff) == a && Stretch(chain, cutoff) == b && Above(chain, cutoff) == c
  {
    CutIs(a, b, c, cutoff);
  }

  /** The condition on a chain that is cut already. */
  lemma PartsVerify(chain: seq<Row>, a: seq<Row>, b: seq<Row>, c: seq<Row>, cutoff: int)
    requires chain == a + b + c && b != []
    requires NoneOld(a, cutoff) && AllOld(b, cutoff) && NoneOld(c, cutoff)
    ensures PassVerifies(chain, cutoff) <==>
      Good(Unsigned, a) && (a == [] || !IsBridge(Last(a))) && Good(Last(b).sig, c)
  {
    StretchOf(a, b, c, cutoff);
    KeptOfOld(b, cutoff);
    assert [] + c == c;
  }

  /** The table after a pass that stopped, and further events. */
  function StoppedTable(legacy: seq<Row>, events: seq<Event>, tenant: string, cutoff: int, k: nat,
                        between: seq<Event>): seq<Row> {
    Run(OwnSignature, Apply(OwnSignature, Table(legacy, events), Interrupted(tenant, cutoff, k)), between)
  }

  /** The state after a stopped pass on a chain that the runs with a clock reach, and whatever
      has been appended since. */
  lemma StoppedChain(legacy: seq<Row>, t: int, events: seq<Event>, tenant: string, cutoff: int, k: nat,
                     between: seq<Event>) returns (added: seq<Row>)
    requires Reached(legacy, t, events) && tenant != "" && HasOld(Chain(Table(legacy, events), tenant), cutoff)
    requires k <= |Stretch(Chain(Table(legacy, events), tenant), cutoff)| && NoPass(between, tenant)
    requires AllFresh(Apply(OwnSignature, Table(legacy, events), Interrupted(tenant, cutoff, k)), between)
    ensures var chain := Chain(Table(legacy, events), tenant);
      var a, b, c := Below(chain, cutoff), Stretch(chain, cutoff), Above(chain, cutoff);
      var rows := StoppedTable(legacy, events, tenant, cutoff, k, between);
      && Stored(rows) && Intact(chain) && chain == a + b + c && Chain(rows, tenant) == a + b[k..] + c + added
      && Appends(a + b[k..] + c, added)
      && (Clocked(Clock(t, events), between) ==>
            InOrder(added, Clock(t, events), Clock(Clock(t, events), between)))
  {
    var rows := Table(legacy, events);
    var chain := Chain(rows, tenant);
    var stopped := Apply(OwnSignature, rows, Interrupted(tenant, cutoff, k));
    ReachedRegular(legacy, t, events);
    HealthyStored(rows);
    CutParts(chain, cutoff);
    ShapeContiguous(chain, cutoff);
    InterruptedChain(rows, tenant, cutoff, k);
    DropOldParts(Below(chain, cutoff), Stretch(chain, cutoff), Above(chain, cutoff), cutoff, k);
    StepStored(rows, Interrupted(tenant, cutoff, k));
    RunStored(stopped, between);
    added := AnyChainGrows(stopped, between, tenant, Clock(t, events));
  }

  /** Over runs: a pass that has deleted its first `k` rows and stopped is noticed exactly when it
      left a row in its stretch or above, whatever is appended afterwards. */
  lemma InterruptedRun(legacy: seq<Row>, t: int, events: seq<Event>, tenant: string, cutoff: int, k: nat,
                       between: seq<Event>)
    requires Reached(legacy, t, events) && tenant != "" && HasOld(Chain(Table(legacy, events), tenant), cutoff)
    requires 1 <= k <= |Stretch(Chain(Table(legacy, events), tenant), cutoff)| && NoPass(between, tenant)
    requires AllFresh(Apply(OwnSignature, Table(legacy, events), Interrupted(tenant, cutoff, k)), between)
    ensures var chain := Chain(Table(legacy, events), tenant);
      var rows := StoppedTable(legacy, events, tenant, cutoff, k, between);
      Verdict(Unsigned, Chain(rows, tenant), 0).ok <==>
        k == |Stretch(chain, cutoff)| && Above(chain, cutoff) == []
  {
    var chain := Chain(Table(legacy, events), tenant);
    var a, b, c := Below(chain, cutoff), Stretch(chain, cutoff), Above(chain, cutoff);
    var added := StoppedChain(legacy, t, events, tenant, cutoff, k, between);
    InterruptedExact(a, b, c, k);
    AppendsKeep(a + b[k..] + c, added);
    VerdictIffGood(Unsigned, a + b[k..] + c + added, 0);
  }

  /** Running the pass again later, with anything appended since, when some of its rows are left:
      it leaves a verified chain exactly when it was allowed in the first place. When none is
      left it does nothing, and the verdict stays as it was. */
  lemma RerunRun(legacy: seq<Row>, t: int, events: seq<Event>, tenant: string, cutoff: int, k: nat,
                 between: seq<Event>, id: string, now: int)
    requires Reached(legacy, t, events) && tenant != "" && HasOld(Chain(Table(legacy, events), tenant), cutoff)
    requires 1 <= k <= |Stretch(Chain(Table(legacy, events), tenant), cutoff)| && NoPass(between, tenant)
    requires AllFresh(Apply(OwnSignature, Table(legacy, events), Interrupted(tenant, cutoff, k)), between)
    requires cutoff <= Clock(t, events) && Clocked(Clock(t, events), between)
    requires !HasId(StoppedTable(legacy, events, tenant, cutoff, k, between), id)
    ensures var chain := Chain(Table(legacy, events), tenant);
      var rows := StoppedTable(legacy, events, tenant, cutoff, k, between);
      var after := Apply(OwnSignature, rows, Compact(tenant, cutoff, id, now));
      Verdict(Unsigned, Chain(after, tenant), 0).ok <==>
        if k < |Stretch(chain, cutoff)| then OneSide(chain, cutoff) else Above(chain, cutoff) == []
  {
    var chain := Chain(Table(legacy, events), tenant);
    var added := StoppedChain(legacy, t, events, tenant, cutoff, k, between);
    forall i | 0 <= i < |added| ensures !Old(added[i], cutoff) { assert added[i] in added; }
    ReachedRegular(legacy, t, events);
    RerunOn(chain, added, StoppedTable(legacy, events, tenant, cutoff, k, between), tenant, cutoff, k, id, now);
  }

  lemma RerunOn(chain: seq<Row>, added: seq<Row>, rows: seq<Row>, tenant: string, cutoff: int, k: nat, id: string,
                now: int)
    requires Shape(chain) && HasOld(chain, cutoff) && Intact(chain) && 1 <= k <= |Stretch(chain, cutoff)|
    requires Stored(rows) && tenant != "" && !HasId(rows, id) && NoneOld(added, cutoff)
    requires Appends(Below(chain, cutoff) + Stretch(chain, cutoff)[k..] + Above(chain, cutoff), added)
    requires Chain(rows, tenant) ==
      Below(chain, cutoff) + Stretch(chain, cutoff)[k..] + Above(chain, cutoff) + added
    ensures var after := Apply(OwnSignature, rows, Compact(tenant, cutoff, id, now));
      Verdict(Unsigned, Chain(after, tenant), 0).ok <==>
        if k < |Stretch(chain, cutoff)| then OneSide(chain, cutoff) else Above(chain, cutoff) == []
  {
    StoredPassExact(rows, tenant, cutoff, id, now);
    CutParts(chain, cutoff);
    ShapeContiguous(chain, cutoff);
    RecordsBelow(chain, cutoff);
    StoppedVerifies(Below(chain, cutoff), Stretch(chain, cutoff), Above(chain, cutoff), added, cutoff, k);
  }

  /** The rerun on the chain. */
  lemma StoppedVerifies(a: seq<Row>, b: seq<Row>, c: seq<Row>, added: seq<Row>, cutoff: int, k: nat)
    requires Intact(a + b + c) && 1 <= k <= |b| && NoneOld(a, cutoff) && AllOld(b, cutoff) && NoneOld(c, cutoff)
    requires Appends(a + b[k..] + c, added) && NoneOld(added, cutoff) && NoBridges(b[1..])
    ensures PassVerifies(a + b[k..] + c + added, cutoff) <==>
      if k < |b| then a == [] || !IsBridge(Last(a)) else c == []
  {
    if k < |b| {
      Regroup(a + b[k..], c, added);
      PartsVerify(a + b[k..] + c + added, a, b[k..], c + added, cutoff);
      OverLast(a, b, c, added, k);
    } else {
      assert b[k..] == [];
      assert a + b[k..] + c == a + c;
      NothingOld(a + c + added, cutoff);
      InterruptedExact(a, b, c, k);
      AppendsKeep(a + c, added);
    }
  }

  lemma OverLast(a: seq<Row>, b: seq<Row>, c: seq<Row>, added: seq<Row>, k: nat)
    requires Intact(a + b + c) && 1 <= k < |b| && NoBridges(b[1..]) && Appends(a + b[k..] + c, added)
    ensures Good(Unsigned, a) && Last(b[k..]) == Last(b) && Good(Last(b).sig, c + added)
  {
    var h := Last(b).sig;
    IntactParts(a + b, c);
    IntactParts(a, b);
    TopHandsOn(a, b);
    LastOfCut(a, b, k);
    AppendsBelow(a + b[k..], c, added, h);
  }

  lemma TopHandsOn(a: seq<Row>, b: seq<Row>)
    requires |b| > 1 && NoBridges(b[1..])
    ensures Head(Unsigned, a + b) == Last(b).sig && Next(Last(b)) == Last(b).sig
  {
    assert Last(b) == b[1..][|b| - 2];
    HeadOfLast(Unsigned, a + b);
    assert Last(a + b) == Last(b);
  }

  lemma LastOfCut(a: seq<Row>, b: seq<Row>, k: nat)
    requires k < |b|
    ensures Last(b[k..]) == Last(b) && LastHead(a + b[k..]) == Next(Last(b))
  {
    assert Last(a + b[k..]) == Last(b);
  }

  /** Rows appended to a chain continue the rows on its top. */
  lemma AppendsBelow(front: seq<Row>, rest: seq<Row>, added: seq<Row>, h: Sig)
    requires Good(h, rest) && Rising(h, rest) && Appends(front + rest, added)
    requires rest != [] || h == LastHead(front)
    ensures Good(h, rest + added) && Rising(h, rest + added)
  {
    if rest == [] {
      assert front + rest == front && rest + added == added;
    } else {
      HeadOfLast(h, rest);
      assert Last(front + rest) == Last(rest);
      GoodConcat(h, rest, added);
      RisingConcat(h, rest, added);
    }
  }

  /** Only the bottom row of such a chain is a record. */
  lemma RecordsBelow(chain: seq<Row>, cutoff: int)
    requires Shape(chain) && HasOld(chain, cutoff)
    ensures NoBridges(Stretch(chain, cutoff)[1..])
    ensures |Stretch(chain, cutoff)| > 1 ==> (OneSide(chain, cutoff) <==> Below(chain, cutoff) == [])
  {
    var a, b, c := Below(chain, cutoff), Stretch(chain, cutoff), Above(chain, cutoff);
    CutParts(chain, cutoff);
    ShapeContiguous(chain, cutoff);
    StretchAbove(chain, a, b, c);
    ShapeBridgeable(chain, cutoff);
    if |b| > 1 { assert b[1] == chain[|a| + 1] && b[0] == chain[|a|]; }
  }

  lemma StretchAbove(chain: seq<Row>, a: seq<Row>, b: seq<Row>, c: seq<Row>)
    requires Shape(chain) && chain == a + b + c && b != []
    ensures NoBridges(b[1..])
  {
    forall i | 0 <= i < |b[1..]| ensures !IsBridge(b[1..][i]) {
      var k := |a| + i + 1;
      assert b[1..][i] == chain[k] && chain[k] == chain[1..][k - 1];
      assert chain[k] in chain && chain[k] in chain[1..];
    }
  }

  /** A later pass of any cutoff, when the stopped one was allowed: as soon as it takes a row, it
      leaves a verified chain, and from then on nothing tells of the rows deleted without a
      record. */
  lemma LaterPassRun(legacy: seq<Row>, t: int, events: seq<Event>, tenant: string, cutoff: int, k: nat,
                     between: seq<Event>, cutoff': int, id: string, now: int)
    requires Reached(legacy, t, events) && tenant != "" && HasOld(Chain(Table(legacy, events), tenant), cutoff)
    requires OneSide(Chain(Table(legacy, events), tenant), cutoff)
    requires 1 <= k <= |Stretch(Chain(Table(legacy, events), tenant), cutoff)| && NoPass(between, tenant)
    requires AllFresh(Apply(OwnSignature, Table(legacy, events), Interrupted(tenant, cutoff, k)), between)
    requires Clocked(Clock(t, events), between)
    requires !HasId(StoppedTable(legacy, events, tenant, cutoff, k, between), id)
    ensures var rows := StoppedTable(legacy, events, tenant, cutoff, k, between);
      var after := Apply(OwnSignature, rows, Compact(tenant, cutoff', id, now));
      HasOld(Chain(rows, tenant), cutoff') ==> Verdict(Unsigned, Chain(after, tenant), 0).ok
  {
    var chain := Chain(Table(legacy, events), tenant);
    var added := StoppedChain(legacy, t, events, tenant, cutoff, k, between);
    var rows := StoppedTable(legacy, events, tenant, cutoff, k, between);
    ReachedRegular(legacy, t, events);
    ShapeBridgeable(chain, cutoff);
    CutParts(chain, cutoff);
    BottomCut(chain, Stretch(chain, cutoff), Above(chain, cutoff), k);
    TailOrdinary(chain, k);
    GrownOrdinary(chain[k..], added, Clock(t, events), Clock(Clock(t, events), between));
    var h := GrownGood(chain, added, k);
    StoredPassExact(rows, tenant, cutoff', id, now);
    if HasOld(chain[k..] + added, cutoff') { OrdinaryPass(h, chain[k..] + added, cutoff'); }
  }

  lemma BottomCut(chain: seq<Row>, b: seq<Row>, c: seq<Row>, k: nat)
    requires chain == [] + b + c && k <= |b|
    ensures chain[k..] == [] + b[k..] + c
  {
  }

  /** Above its bottom row a chain of the clocked shape is ordinary. */
  lemma TailOrdinary(chain: seq<Row>, k: nat)
    requires Shape(chain) && 1 <= k <= |chain|
    ensures Ordinary(chain[k..]) && forall r :: r in chain[k..] ==> r in chain
  {
    if Ordinary(chain) {
      OrdinaryAbove(chain, chain[..k], chain[k..]);
    } else {
      assert chain[1..] == chain[1..k] + chain[k..];
      OrdinaryAbove(chain[1..], chain[1..k], chain[k..]);
    }
  }

  lemma GrownOrdinary(left: seq<Row>, added: seq<Row>, t: int, to: int)
    requires Ordinary(left) && UpTo(left, t) && InOrder(added, t, to) && NoBridges(added)
    ensures Ordinary(left + added)
  {
    forall i, j | 0 <= i < |left| && 0 <= j < |added| ensures left[i].createdAt <= added[j].createdAt {
      assert left[i] in left && added[j] in added;
    }
  }

  /** What is left of a chain and what was appended to it link to each other. */
  lemma GrownGood(chain: seq<Row>, added: seq<Row>, k: nat) returns (h: Sig)
    requires Intact(chain) && k <= |chain| && Appends(chain[k..], added)
    ensures Good(h, chain[k..] + added)
  {
    assert chain == chain[..k] + chain[k..];
    IntactParts(chain[..k], chain[k..]);
    if chain[k..] == [] {
      h := Unsigned;
      assert chain[k..] + added == added;
    } else {
      h := Head(Unsigned, chain[..k]);
      HeadOfLast(h, chain[k..]);
      GoodConcat(h, chain[k..], added);
    }
  }

  /** A pass that takes rows of an ordinary stretch of rows in order leaves a good chain. */
  lemma OrdinaryPass(h: Sig, chain: seq<Row>, cutoff: int)
    requires Ordinary(chain) && Good(h, chain) && HasOld(chain, cutoff)
    ensures PassVerifies(chain, cutoff)
  {
    var b, c := ChronologicalCut(chain, cutoff);
    OldTaken(chain, b, c, cutoff);
    OrdinaryPassOver(h, chain, b, c, cutoff);
  }

  lemma OldTaken(chain: seq<Row>, b: seq<Row>, c: seq<Row>, cutoff: int)
    requires chain == b + c && NoneOld(c, cutoff) && HasOld(chain, cutoff)
    ensures b != []
  {
    NothingOld(chain, cutoff);
    assert b == [] ==> chain == c;
  }

  lemma {:induction false} OrdinaryPassOver(h: Sig, chain: seq<Row>, b: seq<Row>, c: seq<Row>, cutoff: int)
    requires NoBridges(chain) && Good(h, chain) && chain == b + c && b != []
    requires AllOld(b, cutoff) && NoneOld(c, cutoff)
    ensures PassVerifies(chain, cutoff)
  {
    GoodConcat(h, b, c);
    OrdinaryTop(h, chain, b, c);
    assert [] + b + c == chain;
    PartsVerify(chain, [], b, c, cutoff);
  }

  // ---- The pass after a rejected one ----

  /** A pass has taken the record `cr` alone and left `cr'` in its place: the chain is rejected,
      and the next pass leaves a verified one exactly when it takes both that record and the row
      above it. */
  lemma {:induction false} RecordAlone(cr: Row, cr': Row, rest: seq<Row>, cutoff: int)
    requires IsBridge(cr') && Next(cr') == cr.sig && Depth(cr.sig) < Depth(cr'.sig)
    requires Good(Next(cr), rest) && Depth(Next(cr)) < Depth(cr.sig) && Ordinary(rest) && rest != []
    ensures PassVerifies([cr'] + rest, cutoff) <==> Old(cr', cutoff) && Old(rest[0], cutoff)
  {
    var b, c := ChronologicalCut(rest, cutoff);
    GoodConcat(Next(cr), b, c);
    if b == [] {
      RecordOnly(cr, cr', rest, cutoff);
    } else if Old(cr', cutoff) {
      OrdinaryTop(Next(cr), rest, b, c);
      assert AllOld([cr'] + b, cutoff) && [cr'] + rest == [] + ([cr'] + b) + c;
      assert Last([cr'] + b) == Last(b);
      PartsVerify([cr'] + rest, [], [cr'] + b, c, cutoff);
    } else {
      Regroup([cr'], b, c);
      PartsVerify([cr'] + rest, [cr'], b, c, cutoff);
    }
  }

  lemma {:induction false} RecordOnly(cr: Row, cr': Row, rest: seq<Row>, cutoff: int)
    requires IsBridge(cr') && Next(cr') == cr.sig && Depth(Next(cr)) < Depth(cr.sig) < Depth(cr'.sig)
    requires Good(Next(cr), rest) && rest != [] && NoneOld(rest, cutoff)
    ensures !PassVerifies([cr'] + rest, cutoff)
  {
    if Old(cr', cutoff) {
      assert [cr'] + rest == [] + [cr'] + rest;
      PartsVerify([cr'] + rest, [], [cr'], rest, cutoff);
    } else {
      NothingOld([cr'] + rest, cutoff);
      Bottom(Unsigned, cr', rest);
    }
  }

  lemma OrdinaryTop(h: Sig, rest: seq<Row>, b: seq<Row>, c: seq<Row>)
    requires NoBridges(rest) && rest == b + c && b != []
    ensures Head(h, b) == Last(b).sig && !IsBridge(Last(b))
  {
    HeadOfLast(h, b);
    assert Last(b) in rest;
  }

  /** A pass has taken only rows above the record `cr`, which was too young, and left `cr'` in
      their place: the chain is rejected, and the next pass leaves a verified one exactly when it
      takes `cr` and then either nothing else, or `cr'` and the row above it too, if there is
      one. */
  lemma {:induction false} RecordsStacked(cr: Row, cr': Row, left: seq<Row>, cutoff: int)
    requires IsBridge(cr) && IsBridge(cr') && cr.createdAt <= cr'.createdAt
    requires Links(Unsigned, cr) && Links(cr.sig, cr') && Good(Next(cr'), left) && Rising(Next(cr'), left)
    requires 0 < Depth(Next(cr')) && Ordinary(left)
    ensures PassVerifies([cr, cr'] + left, cutoff) <==>
      Old(cr, cutoff) && (left == [] || (Old(cr', cutoff) <==> Old(left[0], cutoff)))
  {
    var b, c := ChronologicalCut(left, cutoff);
    if !Old(cr, cutoff) {
      BridgeSigDeeper(Unsigned, cr);
      StackedYoung(cr, cr', left, b, c, cutoff);
    } else if Old(cr', cutoff) {
      StackedTogether(cr, cr', left, b, c, cutoff);
    } else {
      StackedApart(cr, cr', left, b, c, cutoff);
    }
  }

  lemma {:induction false} StackedTogether(cr: Row, cr': Row, left: seq<Row>, b: seq<Row>, c: seq<Row>, cutoff: int)
    requires left == b + c && AllOld(b, cutoff) && NoneOld(c, cutoff) && Old(cr, cutoff) && Old(cr', cutoff)
    requires Links(cr.sig, cr') && IsBridge(cr') && Good(Next(cr'), left) && NoBridges(left)
    ensures PassVerifies([cr, cr'] + left, cutoff) <==> left == [] || b != []
  {
    var s := [cr, cr'] + b;
    BridgeSigDeeper(cr.sig, cr');
    GoodConcat(Next(cr'), b, c);
    assert AllOld(s, cutoff) && [cr, cr'] + left == [] + s + c;
    PartsVerify([cr, cr'] + left, [], s, c, cutoff);
    if b == [] {
      assert Last(s) == cr' && c == left;
    } else {
      assert Last(s) == Last(b);
      OrdinaryTop(Next(cr'), left, b, c);
    }
  }

  lemma {:induction false} StackedYoung(cr: Row, cr': Row, left: seq<Row>, b: seq<Row>, c: seq<Row>, cutoff: int)
    requires left == b + c && AllOld(b, cutoff) && NoneOld(c, cutoff) && !Old(cr, cutoff) && !Old(cr', cutoff)
    requires IsBridge(cr') && cr'.sig.Mac? && cr'.sig.prev != Next(cr)
    ensures !PassVerifies([cr, cr'] + left, cutoff)
  {
    if b != [] {
      assert [cr, cr'] + left == [cr, cr'] + b + c;
      PartsVerify([cr, cr'] + left, [cr, cr'], b, c, cutoff);
    } else {
      NothingOld([cr, cr'] + left, cutoff);
      assert [cr, cr'] + left == [cr] + ([cr'] + left);
      Bottom(Unsigned, cr, [cr'] + left);
      Bottom(Next(cr), cr', left);
    }
  }

  lemma {:induction false} StackedApart(cr: Row, cr': Row, left: seq<Row>, b: seq<Row>, c: seq<Row>, cutoff: int)
    requires left == b + c && AllOld(b, cutoff) && NoneOld(c, cutoff) && Old(cr, cutoff) && !Old(cr', cutoff)
    requires Links(Unsigned, cr) && Links(cr.sig, cr') && Good(Next(cr'), left) && Rising(Next(cr'), left)
    requires 0 < Depth(Next(cr'))
    ensures PassVerifies([cr, cr'] + left, cutoff) <==> b == []
  {
    if b == [] {
      assert [cr, cr'] + left == [] + [cr] + ([cr'] + left);
      PartsVerify([cr, cr'] + left, [], [cr], [cr'] + left, cutoff);
      Bottom(cr.sig, cr', left);
    } else {
      assert left[|b| - 1] == Last(b);
      ChainsFrom(Next(cr'), left, |b| - 1);
      StackedGap(cr, cr', left, b, c, cutoff);
    }
  }

  lemma {:induction false} StackedGap(cr: Row, cr': Row, left: seq<Row>, b: seq<Row>, c: seq<Row>, cutoff: int)
    requires left == b + c && AllOld(b, cutoff) && NoneOld(c, cutoff) && Old(cr, cutoff) && !Old(cr', cutoff)
    requires b != [] && cr'.sig.Mac? && cr'.sig.prev != Last(b).sig
    ensures !PassVerifies([cr, cr'] + left, cutoff)
  {
    var s := [cr, cr'] + b;
    assert [cr, cr'] + left == [] + s + c && Last(s) == Last(b);
    GapVerifies([cr, cr'] + left, s, c, cutoff);
    KeptBetween(cr, cr', b, cutoff);
    Bottom(Last(b).sig, cr', c);
  }

  lemma GapVerifies(chain: seq<Row>, s: seq<Row>, c: seq<Row>, cutoff: int)
    requires chain == [] + s + c && s != [] && Old(s[0], cutoff) && Old(Last(s), cutoff) && NoneOld(c, cutoff)
    ensures PassVerifies(chain, cutoff) <==> Good(Last(s).sig, Kept(s, cutoff) + c)
  {
    CutIs([], s, c, cutoff);
  }

  lemma KeptBetween(r: Row, y: Row, b: seq<Row>, cutoff: int)
    requires Old(r, cutoff) && !Old(y, cutoff) && AllOld(b, cutoff)
    ensures Kept([r, y] + b, cutoff) == [y]
  {
    var s := [r, y] + b;
    assert s[1..] == [y] + b && s[1..][1..] == b;
    KeptOfOld(b, cutoff);
    assert [y] + [] == [y];
  }

  /** What a pass that takes the record alone leaves. */
  lemma RecordAlonePass(cr: Row, rest: seq<Row>, tenant: string, cutoff: int, id: string, now: int) returns (cr': Row)
    requires IsBridge(cr) && Intact([cr] + rest) && Ordinary(rest) && rest != []
    requires Old(cr, cutoff) && !Old(rest[0], cutoff)
    ensures CompactedChain(OwnSignature, [cr] + rest, tenant, cutoff, id, now) == [cr'] + rest
    ensures IsBridge(cr') && cr'.createdAt == now && Next(cr') == cr.sig && Depth(cr.sig) < Depth(cr'.sig)
    ensures Good(Next(cr), rest) && Depth(Next(cr)) < Depth(cr.sig)
  {
    OrdinaryYoung(rest, cutoff);
    Bottom(Unsigned, cr, rest);
    BridgeSigDeeper(Unsigned, cr);
    assert [] + [cr] + rest == [cr] + rest;
    cr' := PassRecord([cr] + rest, [], [cr], rest, tenant, cutoff, id, now);
    BridgeSigDeeper(Unsigned, cr');
    assert [] + [cr'] + rest == [cr'] + rest;
  }

  lemma OrdinaryYoung(rest: seq<Row>, cutoff: int)
    requires Ordinary(rest) && rest != [] && !Old(rest[0], cutoff)
    ensures NoneOld(rest, cutoff)
  {
    forall k | 0 <= k < |rest| ensures rest[0].createdAt <= rest[k].createdAt {
    }
  }

  /** The record of a pass over one stretch. */
  lemma PassRecord(chain: seq<Row>, a: seq<Row>, b: seq<Row>, c: seq<Row>, tenant: string, cutoff: int, id: string,
                   now: int) returns (cr: Row)
    requires chain == a + b + c && b != [] && Last(b).sig != Unsigned
    requires NoneOld(a, cutoff) && AllOld(b, cutoff) && NoneOld(c, cutoff)
    ensures CompactedChain(OwnSignature, chain, tenant, cutoff, id, now) == a + [cr] + c
    ensures IsBridge(cr) && cr.createdAt == now && Next(cr) == EndSig(cr.details) == Last(b).sig
    ensures Links(SigBelow(OwnSignature, a), cr)
  {
    var n := |Selected(chain, cutoff)|;
    StretchOf(a, b, c, cutoff);
    WholeStretch(OwnSignature, chain, tenant, cutoff, id, now);
    RecordLinks(OwnSignature, a, b, n, tenant, cutoff, id, now, SigBelow(OwnSignature, a));
    cr := BridgeRow(OwnSignature, a, b, n, tenant, cutoff, id, now);
  }

  /** What a pass leaves that takes rows above a record too young for it. */
  lemma StackedPass(cr: Row, rest: seq<Row>, tenant: string, cutoff: int, id: string, now: int)
    returns (cr': Row, left: seq<Row>)
    requires IsBridge(cr) && Intact([cr] + rest) && Ordinary(rest) && rest != []
    requires !Old(cr, cutoff) && Old(rest[0], cutoff)
    ensures CompactedChain(OwnSignature, [cr] + rest, tenant, cutoff, id, now) == [cr, cr'] + left
    ensures IsBridge(cr') && cr'.createdAt == now && Links(Unsigned, cr) && Links(cr.sig, cr')
    ensures 0 < Depth(Next(cr')) && Good(Next(cr'), left) && Rising(Next(cr'), left)
    ensures Ordinary(left) && forall r :: r in left ==> r in rest
  {
    var b, c := ChronologicalCut(rest, cutoff);
    Regroup([cr], b, c);
    Bottom(Unsigned, cr, rest);
    GoodConcat(Next(cr), b, c);
    RisingConcat(Next(cr), b, c);
    RisingDeepens(Next(cr), b);
    OrdinaryTop(Next(cr), rest, b, c);
    OrdinaryAbove(rest, b, c);
    left := c;
    cr' := PassRecord([cr] + rest, [cr], b, c, tenant, cutoff, id, now);
    assert [cr] + [cr'] + c == [cr, cr'] + c;
  }

  lemma AfterRecordAlone(cr: Row, rest: seq<Row>, added: seq<Row>, rows: seq<Row>, cr': Row, t: int, to: int,
                         tenant: string, cutoff: int, id: string, now: int)
    requires IsBridge(cr') && Next(cr') == cr.sig && Depth(cr.sig) < Depth(cr'.sig) && rest != []
    requires Good(Next(cr), rest) && Rising(Next(cr), rest) && Depth(Next(cr)) < Depth(cr.sig)
    requires Ordinary(rest) && UpTo(rest, t) && InOrder(added, t, to) && Appends([cr'] + rest, added)
    requires Stored(rows) && tenant != "" && !HasId(rows, id) && Chain(rows, tenant) == [cr'] + rest + added
    ensures var after := Apply(OwnSignature, rows, Compact(tenant, cutoff, id, now));
      Verdict(Unsigned, Chain(after, tenant), 0).ok <==> Old(cr', cutoff) && Old(rest[0], cutoff)
  {
    AppendsBelow([cr'], rest, added, Next(cr));
    GrownOrdinary(rest, added, t, to);
    RecordAlone(cr, cr', rest + added, cutoff);
    Regroup([cr'], rest, added);
    StoredPassExact(rows, tenant, cutoff, id, now);
  }

  lemma AfterStacked(cr: Row, cr': Row, left: seq<Row>, added: seq<Row>, rows: seq<Row>, t: int, to: int,
                     tenant: string, cutoff: int, id: string, now: int)
    requires IsBridge(cr) && IsBridge(cr') && cr.createdAt <= cr'.createdAt
    requires Links(Unsigned, cr) && Links(cr.sig, cr') && 0 < Depth(Next(cr'))
    requires Good(Next(cr'), left) && Rising(Next(cr'), left) && Appends([cr, cr'] + left, added)
    requires Ordinary(left) && UpTo(left, t) && InOrder(added, t, to)
    requires Stored(rows) && tenant != "" && !HasId(rows, id) && Chain(rows, tenant) == [cr, cr'] + left + added
    ensures var after := Apply(OwnSignature, rows, Compact(tenant, cutoff, id, now));
      Verdict(Unsigned, Chain(after, tenant), 0).ok <==>
        Old(cr, cutoff) && (left + added == [] || (Old(cr', cutoff) <==> Old((left + added)[0], cutoff)))
  {
    AppendsBelow([cr, cr'], left, added, Next(cr'));
    GrownOrdinary(left, added, t, to);
    RecordsStacked(cr, cr', left + added, cutoff);
    Regroup([cr, cr'], left, added);
    StoredPassExact(rows, tenant, cutoff, id, now);
  }

  /** Two passes of a tenant, the first of them outside the guard, over whole runs under a clock
      that never goes back and with anything of the others and any appends in between. The
      first leaves a rejected chain, which stays rejected until the second. If the first took
      the record alone, the second makes it verify again exactly when it takes the new record
      and the row above it. If the first took rows above a record too young for it, exactly when
      the second takes that record, and the new one together with the row above it or neither. */
  lemma SecondPassExact(legacy: seq<Row>, t: int, events: seq<Event>, tenant: string, cutoff: int, id: string, now: int,
                        between: seq<Event>, cutoff': int, id': string, now': int)
    requires Reached(legacy, t, events) && tenant != "" && !HasId(Table(legacy, events), id)
    requires !OneSide(Chain(Table(legacy, events), tenant), cutoff) && Clock(t, events) <= now
    requires AllFresh(Apply(OwnSignature, Table(legacy, events), Compact(tenant, cutoff, id, now)), between)
    requires NoPass(between, tenant) && Clocked(now, between)
    requires !HasId(TwiceTable(legacy, events, tenant, cutoff, id, now, between), id')
    ensures var chain := Chain(Table(legacy, events), tenant);
      var rows := TwiceTable(legacy, events, tenant, cutoff, id, now, between);
      var after := Apply(OwnSignature, rows, Compact(tenant, cutoff', id', now'));
      && !Verdict(Unsigned, Chain(rows, tenant), 0).ok
      && (Old(chain[0], cutoff) ==>
            (Verdict(Unsigned, Chain(after, tenant), 0).ok <==> now < cutoff' && Old(chain[1], cutoff')))
      && (!Old(chain[0], cutoff) ==>
            |Chain(rows, tenant)| >= 2
            && (Verdict(Unsigned, Chain(after, tenant), 0).ok <==>
                  StackedOneSide(Chain(rows, tenant), now, cutoff')))
  {
    var rows := Table(legacy, events);
    var first := Apply(OwnSignature, rows, Compact(tenant, cutoff, id, now));
    ReachedRegular(legacy, t, events);
    HealthyStored(rows);
    StepStored(rows, Compact(tenant, cutoff, id, now));
    RunStored(first, between);
    RejectedPass(rows, tenant, cutoff, id, now);
    var added := AnyChainGrows(first, between, tenant, now);
    AppendsKeep(Chain(first, tenant), added);
    VerdictIffGood(Unsigned, Chain(first, tenant) + added, 0);
    SecondPassOver(Chain(rows, tenant), Chain(first, tenant), added, Run(OwnSignature, first, between),
                   Clock(now, between), tenant, cutoff, id, now, cutoff', id', now');
  }

  lemma SecondPassOver(chain: seq<Row>, passed: seq<Row>, added: seq<Row>, rows: seq<Row>, to: int, tenant: string,
                       cutoff: int, id: string, now: int, cutoff': int, id': string, now': int)
    requires |chain| > 1 && IsBridge(chain[0]) && Ordinary(chain[1..]) && Intact(chain) && UpTo(chain, now)
    requires !OneSide(chain, cutoff) && passed == CompactedChain(OwnSignature, chain, tenant, cutoff, id, now)
    requires Appends(passed, added) && InOrder(added, now, to)
    requires Stored(rows) && Chain(rows, tenant) == passed + added && tenant != "" && !HasId(rows, id')
    ensures var after := Apply(OwnSignature, rows, Compact(tenant, cutoff', id', now'));
      && (Old(chain[0], cutoff) ==>
            (Verdict(Unsigned, Chain(after, tenant), 0).ok <==> now < cutoff' && Old(chain[1], cutoff')))
      && (!Old(chain[0], cutoff) ==>
            |passed + added| >= 2
            && (Verdict(Unsigned, Chain(after, tenant), 0).ok <==> StackedOneSide(passed + added, now, cutoff')))
  {
    var cr, rest := chain[0], chain[1..];
    assert chain == [cr] + rest && rest[0] == chain[1];
    Bottom(Unsigned, cr, rest);
    if Old(cr, cutoff) {
      var cr' := RecordAlonePass(cr, rest, tenant, cutoff, id, now);
      AfterRecordAlone(cr, rest, added, rows, cr', now, to, tenant, cutoff', id', now');
    } else {
      var cr', left := StackedPass(cr, rest, tenant, cutoff, id, now);
      AfterStacked(cr, cr', left, added, rows, now, to, tenant, cutoff', id', now');
      Regroup([cr, cr'], left, added);
      assert ([cr, cr'] + (left + added))[2..] == left + added;
    }
  }

  /** Two records at the bottom, the upper one of time `now`. */
  predicate StackedOneSide(chain: seq<Row>, now: int, cutoff: int)
    requires |chain| >= 2
  {
    Old(chain[0], cutoff) && (|chain| == 2 || (now < cutoff <==> Old(chain[2], cutoff)))
  }

  function TwiceTable(legacy: seq<Row>, events: seq<Event>, tenant: string, cutoff: int, id: string, now: int,
                      between: seq<Event>): seq<Row> {
    Run(OwnSignature, Apply(OwnSignature, Table(legacy, events), Compact(tenant, cutoff, id, now)), between)
  }

  lemma RejectedPass(rows: seq<Row>, tenant: string, cutoff: int, id: string, now: int)
    requires Healthy(rows) && Shape(Chain(rows, tenant)) && tenant != "" && !HasId(rows, id)
    requires !OneSide(Chain(rows, tenant), cutoff)
    ensures var chain, after := Chain(rows, tenant), Apply(OwnSignature, rows, Compact(tenant, cutoff, id, now));
      && !Good(Unsigned, Chain(after, tenant))
      && Chain(after, tenant) == CompactedChain(OwnSignature, chain, tenant, cutoff, id, now)
      && |chain| > 1 && IsBridge(chain[0]) && Ordinary(chain[1..]) && Intact(chain)
  {
    var chain := Chain(rows, tenant);
    ShapeBridgeable(chain, cutoff);
    if Ordinary(chain) { OrdinaryOneSide(chain, cutoff); }
    CompactedTableChain(OwnSignature, rows, tenant, cutoff, id, now, tenant);
    CompactExact(chain, tenant, cutoff, id, now);
    VerdictIffGood(Unsigned, CompactedChain(OwnSignature, chain, tenant, cutoff, id, now), 0);
  }

  // ---- What a stopped pass deletes ----

  lemma {:induction false} WithoutRows(rows: seq<Row>, ids: set<string>)
    ensures forall r :: multiset(Without(rows, ids))[r] == if r.id in ids then 0 else multiset(rows)[r]
  {
    if rows != [] {
      WithoutRows(rows[1..], ids);
      assert rows == [rows[0]] + rows[1..];
    }
  }

  /** Exactly these rows have gone. */
  ghost predicate Gone(rows: seq<Row>, after: seq<Row>, gone: set<Row>) {
    forall r :: multiset(after)[r] == if r in gone then 0 else multiset(rows)[r]
  }

  /** The rows with the lowest slots of those that are due. */
  predicate LowestDue(rows: seq<Row>, tenant: string, cutoff: int, gone: set<Row>) {
    && (forall r :: r in gone ==> r in rows && Goes(r, tenant, cutoff))
    && forall r, q :: r in gone && q in rows && Goes(q, tenant, cutoff) && q !in gone ==> r.seqNo < q.seqNo
  }

  /** A pass that stops after `k` deletes has deleted the `k` lowest of its rows, or all; one that
      finds an unsigned end, or no row, deletes none. */
  lemma StoppedStores(rows: seq<Row>, tenant: string, cutoff: int, k: nat) returns (gone: set<Row>)
    requires Keyed(rows) && Slotted(rows)
    ensures Gone(rows, InterruptedTable(rows, tenant, cutoff, k), gone) && LowestDue(rows, tenant, cutoff, gone)
    ensures |gone| ==
      if tenant != "" && exists first, last :: SignedEnds(rows, tenant, cutoff, first, last)
      then Min(k, |set r | r in rows && Goes(r, tenant, cutoff)|) else 0
  {
    var tomb := Selected(Chain(rows, tenant), cutoff);
    SelectedAre(rows, tenant, cutoff);
    TombOrdered(rows, tenant, cutoff);
    if tomb != [] { EndsAre(rows, tenant, cutoff); }
    if tenant == "" || tomb == [] || tomb[0].sig == Unsigned || Last(tomb).sig == Unsigned {
      gone := {};
    } else {
      var first := tomb[..Min(k, |tomb|)];
      gone := RowSet(first);
      FrontKeyed(tomb, Min(k, |tomb|));
      KeyedSize(first);
      WithoutRows(rows, Ids(first));
      forall r ensures multiset(Without(rows, Ids(first)))[r] == if r in gone then 0 else multiset(rows)[r] {
        IdInFront(rows, tomb, Min(k, |tomb|), r);
      }
      FrontLowest(tomb, Min(k, |tomb|));
    }
  }

  lemma TombOrdered(rows: seq<Row>, tenant: string, cutoff: int)
    requires Keyed(rows) && Slotted(rows)
    ensures var tomb := Selected(Chain(rows, tenant), cutoff); Keyed(tomb) && Ascending(tomb)
  {
    ChainStrict(rows, tenant);
    ChainKeyed(rows, tenant);
    KeyedSelected(Chain(rows, tenant), cutoff);
    SelectedAscending(Chain(rows, tenant), cutoff);
  }

  lemma {:induction false} SelectedAscending(chain: seq<Row>, cutoff: int)
    requires Ascending(chain)
    ensures Ascending(Selected(chain, cutoff)) && forall r :: r in Selected(chain, cutoff) ==> r in chain
  {
    if chain != [] {
      SelectedAscending(chain[1..], cutoff);
      var rest := Selected(chain[1..], cutoff);
      forall j | 0 <= j < |rest| ensures chain[0].seqNo < rest[j].seqNo {
        assert rest[j] in chain[1..];
        var i :| 0 <= i < |chain[1..]| && chain[1..][i] == rest[j];
        assert chain[i + 1] == rest[j];
      }
      assert forall r :: r in chain[1..] ==> r in chain;
    }
  }

  /** With slots distinct there is one lowest and one highest. */
  lemma EndsAre(rows: seq<Row>, tenant: string, cutoff: int)
    requires Keyed(rows) && Slotted(rows) && Selected(Chain(rows, tenant), cutoff) != []
    ensures var tomb := Selected(Chain(rows, tenant), cutoff);
      (exists first, last :: SignedEnds(rows, tenant, cutoff, first, last)) <==>
        tomb[0].sig != Unsigned && Last(tomb).sig != Unsigned
  {
    var tomb := Selected(Chain(rows, tenant), cutoff);
    SelectedAre(rows, tenant, cutoff);
    if first, last :| SignedEnds(rows, tenant, cutoff, first, last) {
      OneOfSlot(rows, first, tomb[0]);
      OneOfSlot(rows, last, Last(tomb));
    } else if tomb[0].sig != Unsigned && Last(tomb).sig != Unsigned {
      assert SignedEnds(rows, tenant, cutoff, tomb[0], Last(tomb));
    }
  }

  lemma OneOfSlot(rows: seq<Row>, r: Row, q: Row)
    requires Slotted(rows) && r in rows && q in rows && r.tenant == q.tenant && r.seqNo == q.seqNo
    ensures r == q
  {
    var i :| 0 <= i < |rows| && rows[i] == r;
    var j :| 0 <= j < |rows| && rows[j] == q;
  }

  lemma FrontKeyed(tomb: seq<Row>, n: nat)
    requires Keyed(tomb) && n <= |tomb|
    ensures Keyed(tomb[..n])
  {
  }

  lemma IdInFront(rows: seq<Row>, tomb: seq<Row>, n: nat, r: Row)
    requires Keyed(rows) && n <= |tomb| && forall q :: q in tomb ==> q in rows
    ensures r in tomb[..n] ==> r.id in Ids(tomb[..n])
    ensures r in rows && r.id in Ids(tomb[..n]) ==> r in tomb[..n]
    ensures r !in rows ==> multiset(rows)[r] == 0
  {
    var front := tomb[..n];
    if r in front {
      var i :| 0 <= i < |front| && front[i] == r;
      assert HasId(front, r.id);
    }
    if r in rows && HasId(front, r.id) {
      var i :| 0 <= i < |front| && front[i].id == r.id;
      assert front[i] in tomb;
      var a :| 0 <= a < |rows| && rows[a] == r;
      var b :| 0 <= b < |rows| && rows[b] == front[i];
    }
  }

  lemma FrontLowest(tomb: seq<Row>, n: nat)
    requires Ascending(tomb) && n <= |tomb|
    ensures forall r, q :: r in tomb[..n] && q in tomb && q !in tomb[..n] ==> r.seqNo < q.seqNo
  {
    var front := tomb[..n];
    forall r, q | r in front && q in tomb && q !in front ensures r.seqNo < q.seqNo {
      var i :| 0 <= i < n && front[i] == r;
      var j :| 0 <= j < |tomb| && tomb[j] == q;
      if j < n { assert front[j] == q; }
    }
  }
}
