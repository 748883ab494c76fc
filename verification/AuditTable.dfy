/** The audit_logs table: rows of every tenant in storage order, which no query
    observes, and the statements that append, compact and backfill issue. */
module AuditTable {
  import opened Ordering
  import opened Sequences
  import opened AuditRecord
  import opened AuditChain

  predicate SeqBefore(a: Row, b: Row) {
    a.seqNo < b.seqNo
  }

  /** Strictly increasing slots. */
  predicate Ascending(chain: seq<Row>) {
    forall i, j :: 0 <= i < j < |chain| ==> chain[i].seqNo < chain[j].seqNo
  }

  function ForTenant(rows: seq<Row>, tenant: string): seq<Row> {
    if rows == [] then []
    else if rows[0].tenant == tenant then [rows[0]] + ForTenant(rows[1..], tenant)
    else ForTenant(rows[1..], tenant)
  }

  /** `WHERE tenant_id = ? ORDER BY chain_seq ASC`. */
  function Chain(rows: seq<Row>, tenant: string): seq<Row> {
    OrderBy(ForTenant(rows, tenant), SeqBefore)
  }

  predicate HasId(rows: seq<Row>, id: string) {
    exists i :: 0 <= i < |rows| && rows[i].id == id
  }

  /** The primary key holds. */
  predicate Keyed(rows: seq<Row>) {
    forall i, j :: 0 <= i < j < |rows| ==> rows[i].id != rows[j].id
  }

  /** No two rows of a tenant share a slot. */
  predicate Slotted(rows: seq<Row>) {
    forall i, j :: 0 <= i < j < |rows| && rows[i].tenant == rows[j].tenant ==> rows[i].seqNo != rows[j].seqNo
  }

  // ---- Queries ----

  lemma {:induction false} ForTenantConcat(a: seq<Row>, b: seq<Row>, tenant: string)
    ensures ForTenant(a + b, tenant) == ForTenant(a, tenant) + ForTenant(b, tenant)
  {
    if a == [] {
      assert a + b == b;
    } else {
      assert (a + b)[1..] == a[1..] + b;
      ForTenantConcat(a[1..], b, tenant);
    }
  }

  lemma {:induction false} ForTenantCount(rows: seq<Row>, tenant: string, r: Row)
    ensures multiset(ForTenant(rows, tenant))[r] == if r.tenant == tenant then multiset(rows)[r] else 0
  {
    if rows != [] {
      ForTenantCount(rows[1..], tenant, r);
      assert rows == [rows[0]] + rows[1..];
    }
  }

  /** Tables that differ only in storage order answer every query alike. */
  lemma SameRowsSameTenant(a: seq<Row>, b: seq<Row>, tenant: string)
    requires multiset(a) == multiset(b)
    ensures multiset(ForTenant(a, tenant)) == multiset(ForTenant(b, tenant))
  {
    forall r ensures multiset(ForTenant(a, tenant))[r] == multiset(ForTenant(b, tenant))[r] {
      ForTenantCount(a, tenant, r);
      ForTenantCount(b, tenant, r);
    }
  }

  lemma {:induction false} ForTenantSlotted(rows: seq<Row>, tenant: string)
    requires Slotted(rows)
    ensures Slotted(ForTenant(rows, tenant))
    ensures forall r :: r in ForTenant(rows, tenant) <==> r in rows && r.tenant == tenant
  {
    if rows != [] {
      ForTenantSlotted(rows[1..], tenant);
      assert forall r :: r in rows <==> r == rows[0] || r in rows[1..];
      if rows[0].tenant == tenant {
        var q := ForTenant(rows[1..], tenant);
        forall j | 0 <= j < |q| ensures q[j].seqNo != rows[0].seqNo {
          assert q[j] in rows[1..];
        }
      }
    }
  }

  lemma ChainRows(rows: seq<Row>, tenant: string, r: Row)
    ensures r in Chain(rows, tenant) <==> r in rows && r.tenant == tenant
  {
    OrderByKeepsElements(ForTenant(rows, tenant), SeqBefore);
    ForTenantCount(rows, tenant, r);
    assert r in Chain(rows, tenant) <==> r in multiset(Chain(rows, tenant));
    assert r in rows <==> r in multiset(rows);
  }

  lemma SlottedByCount(p: seq<Row>, q: seq<Row>)
    requires Slotted(p) && multiset(p) == multiset(q)
    ensures Slotted(q)
  {
    forall i, j | 0 <= i < j < |q| && q[i].tenant == q[j].tenant ensures q[i].seqNo != q[j].seqNo {
      TwoPlaces(p, q, i, j);
    }
  }

  /** Two places of one arrangement are two places of the other. */
  lemma TwoPlaces(p: seq<Row>, q: seq<Row>, i: nat, j: nat)
    requires multiset(p) == multiset(q) && i < j < |q|
    ensures exists k, l :: 0 <= k < |p| && 0 <= l < |p| && k != l && p[k] == q[i] && p[l] == q[j]
  {
    if q[i] == q[j] {
      CountedTwice(q, i, j);
      var k, l := FoundTwice(p, q[i]);
    } else {
      assert q[i] in multiset(p) && q[j] in multiset(p);
      var k :| 0 <= k < |p| && p[k] == q[i];
      var l :| 0 <= l < |p| && p[l] == q[j];
    }
  }

  lemma CountedTwice(q: seq<Row>, i: nat, j: nat)
    requires i < j < |q| && q[i] == q[j]
    ensures multiset(q)[q[i]] >= 2
  {
    assert q == q[..j] + q[j..];
    assert q[i] == q[..j][i] && q[j] == q[j..][0];
    assert q[i] in q[..j] && q[i] in q[j..];
  }

  lemma {:induction false} FoundTwice(p: seq<Row>, r: Row) returns (k: nat, l: nat)
    requires multiset(p)[r] >= 2
    ensures k < l < |p| && p[k] == r && p[l] == r
  {
    assert p == [p[0]] + p[1..];
    if p[0] == r {
      assert r in multiset(p[1..]);
      var m :| 0 <= m < |p[1..]| && p[1..][m] == r;
      k, l := 0, m + 1;
    } else {
      k, l := FoundTwice(p[1..], r);
      k, l := k + 1, l + 1;
    }
  }

  lemma SeqOrder()
    ensures StrictWeakOrder(SeqBefore)
  {
  }

  lemma ChainStrict(rows: seq<Row>, tenant: string)
    requires Slotted(rows)
    ensures Ascending(Chain(rows, tenant))
    ensures forall r :: r in Chain(rows, tenant) ==> r.tenant == tenant
  {
    SeqOrder();
    var q := ForTenant(rows, tenant);
    ForTenantSlotted(rows, tenant);
    OrderBySorted(q, SeqBefore);
    OrderByKeepsElements(q, SeqBefore);
    var chain := Chain(rows, tenant);
    SlottedByCount(q, chain);
    forall r | r in chain ensures r.tenant == tenant { ChainRows(rows, tenant, r); }
    forall i, j | 0 <= i < j < |chain| ensures chain[i].seqNo < chain[j].seqNo {
      assert !SeqBefore(chain[j], chain[i]);
      assert chain[i] in chain && chain[j] in chain;
    }
  }

  /** A strictly increasing arrangement of a tenant's rows is its chain. */
  lemma ChainIs(rows: seq<Row>, tenant: string, chain: seq<Row>)
    requires Ascending(chain) && multiset(ForTenant(rows, tenant)) == multiset(chain)
    ensures Chain(rows, tenant) == chain
  {
    SeqOrder();
    assert StrictlySorted(chain, SeqBefore);
    OrderByIs(ForTenant(rows, tenant), chain, SeqBefore);
  }

  // ---- Append ----

  function TenantOrDefault(tenant: string): string {
    if tenant == "" then "default" else tenant
  }

  function Draft(tenant: string, user: string, action: string, resourceType: string, resourceId: string,
                 details: Details, ip: string, id: string, now: int): Row {
    Row(id, TenantOrDefault(tenant), user, action, resourceType, resourceId, details, ip, now, Unsigned, 0)
  }

  /** The insert of an appended row; a taken id makes it fail and change nothing. */
  function Appended(rows: seq<Row>, draft: Row): seq<Row> {
    if HasId(rows, draft.id) then rows else rows + [NewRow(Chain(rows, draft.tenant), draft)]
  }

  lemma AppendedChain(rows: seq<Row>, draft: Row, tenant: string)
    requires Slotted(rows)
    ensures Chain(Appended(rows, draft), tenant) ==
      if tenant == draft.tenant && !HasId(rows, draft.id)
      then Chain(rows, tenant) + [NewRow(Chain(rows, tenant), draft)]
      else Chain(rows, tenant)
  {
    if !HasId(rows, draft.id) {
      ChainOfInsert(rows, NewRow(Chain(rows, draft.tenant), draft), tenant);
      if tenant == draft.tenant {
        ChainStrict(rows, tenant);
        var r := NewRow(Chain(rows, tenant), draft);
        ChainIs(rows + [r], tenant, Chain(rows, tenant) + [r]);
      }
    }
  }

  /** Inserting a row adds it to its own tenant's rows and leaves the other chains. */
  lemma ChainOfInsert(rows: seq<Row>, r: Row, tenant: string)
    ensures r.tenant == tenant ==> multiset(ForTenant(rows + [r], tenant)) == multiset(Chain(rows, tenant) + [r])
    ensures r.tenant != tenant ==> Chain(rows + [r], tenant) == Chain(rows, tenant)
  {
    ForTenantConcat(rows, [r], tenant);
    assert [r][1..] == [];
    OrderByKeepsElements(ForTenant(rows, tenant), SeqBefore);
    if r.tenant == tenant {
      assert ForTenant([r], tenant) == [r];
    } else {
      assert ForTenant(rows, tenant) + [] == ForTenant(rows, tenant);
    }
  }

  lemma AppendedKeyed(rows: seq<Row>, draft: Row)
    requires Keyed(rows) && Slotted(rows)
    ensures Keyed(Appended(rows, draft)) && Slotted(Appended(rows, draft))
  {
    var chain := Chain(rows, draft.tenant);
    var r := NewRow(chain, draft);
    ChainStrict(rows, draft.tenant);
    forall i | 0 <= i < |rows| && rows[i].tenant == draft.tenant ensures rows[i].seqNo < r.seqNo {
      ChainRows(rows, draft.tenant, rows[i]);
      var k :| 0 <= k < |chain| && chain[k] == rows[i];
      if k < |chain| - 1 { assert chain[k].seqNo < chain[|chain| - 1].seqNo; }
    }
  }

  // ---- Compaction ----

  /** The rows that `DELETE` leaves. */
  function Survivors(rows: seq<Row>, tenant: string, cutoff: int): seq<Row> {
    if rows == [] then []
    else if rows[0].tenant == tenant && Old(rows[0], cutoff) then Survivors(rows[1..], tenant, cutoff)
    else [rows[0]] + Survivors(rows[1..], tenant, cutoff)
  }

  /** `WHERE chain_seq < ?` on a chain. */
  function Lower(chain: seq<Row>, seqNo: int): seq<Row> {
    if chain == [] then []
    else if chain[0].seqNo < seqNo then [chain[0]] + Lower(chain[1..], seqNo)
    else Lower(chain[1..], seqNo)
  }

  /** `DELETE ... WHERE id = ?`. */
  function Without(rows: seq<Row>, ids: set<string>): seq<Row> {
    if rows == [] then []
    else if rows[0].id in ids then Without(rows[1..], ids)
    else [rows[0]] + Without(rows[1..], ids)
  }

  function Ids(rows: seq<Row>): (ids: set<string>)
    ensures forall id :: id in ids <==> HasId(rows, id)
  {
    set i | 0 <= i < |rows| :: rows[i].id
  }

  datatype Outcome = Done(count: nat, recordId: string) | TenantRequired | UnsignedRange | InsertFailed

  /** The table after a compaction, and what the caller is told. */
  function CompactedTable(rule: Rule, rows: seq<Row>, tenant: string, cutoff: int, id: string, now: int): (seq<Row>,
                          Outcome) {
    if tenant == "" then (rows, TenantRequired)
    else
      var chain := Chain(rows, tenant);
      var tomb := Selected(chain, cutoff);
      if tomb == [] then (rows, Done(0, ""))
      else if tomb[0].sig == Unsigned || tomb[|tomb| - 1].sig == Unsigned then (rows, UnsignedRange)
      else
        var left := Survivors(rows, tenant, cutoff);
        var cr := BridgeRow(rule, Lower(chain, tomb[0].seqNo), tomb, |tomb|, tenant, cutoff, id, now);
        if HasId(left, id) then (left, InsertFailed) else (left + [cr], Done(|tomb|, id))
  }

  lemma {:induction false} SurvivorsOf(rows: seq<Row>, tenant: string, cutoff: int, other: string)
    ensures ForTenant(Survivors(rows, tenant, cutoff), other) ==
      if other == tenant then Kept(ForTenant(rows, tenant), cutoff) else ForTenant(rows, other)
  {
    if rows != [] { SurvivorsOf(rows[1..], tenant, cutoff, other); }
  }

  lemma {:induction false} SurvivorsFrom(rows: seq<Row>, tenant: string, cutoff: int)
    requires Keyed(rows) && Slotted(rows)
    ensures Keyed(Survivors(rows, tenant, cutoff)) && Slotted(Survivors(rows, tenant, cutoff))
    ensures forall r :: r in Survivors(rows, tenant, cutoff) ==> r in rows
  {
    if rows != [] {
      SurvivorsFrom(rows[1..], tenant, cutoff);
      var q := Survivors(rows[1..], tenant, cutoff);
      forall j | 0 <= j < |q|
        ensures q[j].id != rows[0].id && (q[j].tenant == rows[0].tenant ==> q[j].seqNo != rows[0].seqNo)
      {
        assert q[j] in rows[1..];
      }
    }
  }

  lemma {:induction false} KeptCount(chain: seq<Row>, cutoff: int, r: Row)
    ensures multiset(Kept(chain, cutoff))[r] == if Old(r, cutoff) then 0 else multiset(chain)[r]
  {
    if chain != [] {
      KeptCount(chain[1..], cutoff, r);
      assert chain == [chain[0]] + chain[1..];
    }
  }

  lemma KeptSameRows(p: seq<Row>, q: seq<Row>, cutoff: int)
    requires multiset(p) == multiset(q)
    ensures multiset(Kept(p, cutoff)) == multiset(Kept(q, cutoff))
  {
    forall r ensures multiset(Kept(p, cutoff))[r] == multiset(Kept(q, cutoff))[r] {
      KeptCount(p, cutoff, r);
      KeptCount(q, cutoff, r);
    }
  }

  lemma {:induction false} KeptSorted(chain: seq<Row>, cutoff: int, floor: int)
    requires Ascending(chain) && AboveSlot(chain, floor)
    ensures Ascending(Kept(chain, cutoff)) && AboveSlot(Kept(chain, cutoff), floor)
  {
    if chain != [] {
      var r := chain[0];
      KeptSorted(chain[1..], cutoff, if Old(r, cutoff) then floor else r.seqNo);
    }
  }

  predicate AboveSlot(chain: seq<Row>, floor: int) {
    forall k :: 0 <= k < |chain| ==> floor < chain[k].seqNo
  }

  lemma {:induction false} LowerIs(a: seq<Row>, c: seq<Row>, seqNo: int)
    requires forall k :: 0 <= k < |a| ==> a[k].seqNo < seqNo
    requires forall k :: 0 <= k < |c| ==> seqNo <= c[k].seqNo
    ensures Lower(a + c, seqNo) == a
  {
    if a == [] {
      assert a + c == c;
      if c != [] {
        LowerIs([], c[1..], seqNo);
        assert [] + c[1..] == c[1..];
      }
    } else {
      assert (a + c)[1..] == a[1..] + c;
      LowerIs(a[1..], c, seqNo);
    }
  }

  /** What the compactor reads off the selected rows is what the stretch says: where
      it starts, where it ends, and which rows lie below. */
  lemma SelectedEnds(chain: seq<Row>, cutoff: int)
    requires Ascending(chain) && HasOld(chain, cutoff)
    ensures var tomb, b := Selected(chain, cutoff), Stretch(chain, cutoff);
      && tomb != [] && tomb[0] == b[0] && tomb[|tomb| - 1] == b[|b| - 1]
      && Lower(chain, b[0].seqNo) == Below(chain, cutoff)
  {
    var a, b, c := Below(chain, cutoff), Stretch(chain, cutoff), Above(chain, cutoff);
    CutParts(chain, cutoff);
    SelectedOnly(a, b, c, cutoff);
    SelectedOfSpan(b, cutoff);
    StretchAboveBelow(chain, a, b, c);
  }

  lemma SelectedNone(chain: seq<Row>, cutoff: int)
    requires !HasOld(chain, cutoff)
    ensures Selected(chain, cutoff) == []
  {
    NothingOld(chain, cutoff);
    SelectedOfYoung(chain, cutoff);
  }

  lemma SelectedOnly(a: seq<Row>, b: seq<Row>, c: seq<Row>, cutoff: int)
    requires NoneOld(a, cutoff) && NoneOld(c, cutoff)
    ensures Selected(a + b + c, cutoff) == Selected(b, cutoff)
  {
    SelectedConcat(a + b, c, cutoff);
    SelectedConcat(a, b, cutoff);
    SelectedOfYoung(a, cutoff);
    SelectedOfYoung(c, cutoff);
  }

  lemma StretchAboveBelow(chain: seq<Row>, a: seq<Row>, b: seq<Row>, c: seq<Row>)
    requires Ascending(chain) && chain == a + b + c && b != []
    ensures Lower(chain, b[0].seqNo) == a
  {
    assert chain == a + (b + c);
    BelowIsLower(chain, a, b + c);
  }

  lemma BelowIsLower(chain: seq<Row>, a: seq<Row>, c: seq<Row>)
    requires Ascending(chain) && chain == a + c && c != []
    ensures Lower(chain, c[0].seqNo) == a
  {
    forall k | 0 <= k < |a| ensures a[k].seqNo < c[0].seqNo {
      assert chain[k].seqNo < chain[|a|].seqNo;
    }
    forall k | 0 <= k < |c| ensures c[0].seqNo <= c[k].seqNo {
      if k > 0 { assert chain[|a|].seqNo < chain[|a| + k].seqNo; }
    }
    LowerIs(a, c, c[0].seqNo);
  }

  lemma {:induction false} SelectedConcat(a: seq<Row>, b: seq<Row>, cutoff: int)
    ensures Selected(a + b, cutoff) == Selected(a, cutoff) + Selected(b, cutoff)
  {
    if a == [] {
      assert a + b == b;
    } else {
      assert (a + b)[1..] == a[1..] + b;
      SelectedConcat(a[1..], b, cutoff);
    }
  }

  lemma {:induction false} SelectedOfYoung(a: seq<Row>, cutoff: int)
    requires NoneOld(a, cutoff)
    ensures Selected(a, cutoff) == []
  {
    if a != [] { SelectedOfYoung(a[1..], cutoff); }
  }

  lemma SelectedOfSpan(b: seq<Row>, cutoff: int)
    requires b != [] && Old(b[0], cutoff) && Old(b[|b| - 1], cutoff)
    ensures var tomb := Selected(b, cutoff); tomb != [] && tomb[0] == b[0] && tomb[|tomb| - 1] == b[|b| - 1]
  {
    assert b == b[..|b| - 1] + [b[|b| - 1]];
    SelectedConcat(b[..|b| - 1], [b[|b| - 1]], cutoff);
    assert [b[|b| - 1]][1..] == [];
    assert Selected([b[|b| - 1]], cutoff) == [b[|b| - 1]];
  }

  lemma CompactedSorted(rule: Rule, chain: seq<Row>, tenant: string, cutoff: int, id: string, now: int)
    requires Ascending(chain)
    ensures Ascending(CompactedChain(rule, chain, tenant, cutoff, id, now))
  {
    if HasOld(chain, cutoff) {
      var a, b, c := Below(chain, cutoff), Stretch(chain, cutoff), Above(chain, cutoff);
      var cr := BridgeRow(rule, a, b, |Selected(chain, cutoff)|, tenant, cutoff, id, now);
      CutParts(chain, cutoff);
      ReplacedSorted(a, b, c, cr, cutoff);
    }
  }

  lemma ReplacedSorted(a: seq<Row>, b: seq<Row>, c: seq<Row>, cr: Row, cutoff: int)
    requires Ascending(a + b + c) && b != [] && Old(b[0], cutoff) && NoneOld(c, cutoff) && cr.seqNo == b[0].seqNo
    ensures Ascending(a + [cr] + Kept(b, cutoff) + c)
  {
    var tail := b[1..] + c;
    assert a + b + c == a + [b[0]] + tail;
    SortedBeside(a, b[0], tail);
    KeptSorted(tail, cutoff, cr.seqNo);
    SortedAround(a, cr, Kept(tail, cutoff));
    KeptBehind(b, c, cutoff);
    Regroup(a + [cr], Kept(b, cutoff), c);
  }

  lemma KeptBehind(b: seq<Row>, c: seq<Row>, cutoff: int)
    requires b != [] && Old(b[0], cutoff) && NoneOld(c, cutoff)
    ensures Kept(b, cutoff) + c == Kept(b[1..] + c, cutoff)
  {
    KeptConcat(b[1..], c, cutoff);
    KeptOfYoung(c, cutoff);
  }

  lemma SortedBeside(a: seq<Row>, r: Row, c: seq<Row>)
    requires Ascending(a + [r] + c)
    ensures Ascending(a) && Ascending(c) && AboveSlot(c, r.seqNo)
    ensures forall k :: 0 <= k < |a| ==> a[k].seqNo < r.seqNo
  {
    var chain := a + [r] + c;
    assert chain[|a|] == r;
    forall k | 0 <= k < |c| ensures c[k] == chain[|a| + 1 + k] {
    }
    forall k | 0 <= k < |a| ensures a[k] == chain[k] {
    }
  }

  lemma SortedAround(a: seq<Row>, r: Row, c: seq<Row>)
    requires Ascending(a) && Ascending(c)
    requires forall k :: 0 <= k < |a| ==> a[k].seqNo < r.seqNo
    requires AboveSlot(c, r.seqNo)
    ensures Ascending(a + [r] + c)
  {
  }

  predicate Signed(chain: seq<Row>) {
    forall r :: r in chain ==> r.sig != Unsigned
  }

  lemma {:induction false} GoodSigned(h: Sig, chain: seq<Row>)
    requires Good(h, chain)
    ensures forall r :: r in chain ==> r.sig != Unsigned && (IsBridge(r) ==> EndSig(r.details) != Unsigned)
    decreases chain
  {
    if chain != [] {
      GoodSigned(Next(chain[0]), chain[1..]);
      assert forall r :: r in chain ==> r == chain[0] || r in chain[1..];
    }
  }

  /** On a table with distinct slots the statements produce the compacted chain for
      the tenant and touch no other. */
  lemma CompactedTableChain(rule: Rule, rows: seq<Row>, tenant: string, cutoff: int, id: string, now: int,
                            other: string)
    requires Keyed(rows) && Slotted(rows) && tenant != "" && !HasId(rows, id) && Intact(Chain(rows, tenant))
    ensures var after := CompactedTable(rule, rows, tenant, cutoff, id, now);
      && Chain(after.0, other) ==
        (if other == tenant then CompactedChain(rule, Chain(rows, tenant), tenant, cutoff, id, now)
          else Chain(rows, other))
      && after.1.Done? && after.1.count == |Selected(Chain(rows, tenant), cutoff)|
  {
    GoodSigned(Unsigned, Chain(rows, tenant));
    SignedTableChain(rule, rows, tenant, cutoff, id, now, other);
  }

  /** The same for any chain whose rows are signed, verified or not. */
  lemma SignedTableChain(rule: Rule, rows: seq<Row>, tenant: string, cutoff: int, id: string, now: int, other: string)
    requires Keyed(rows) && Slotted(rows) && tenant != "" && !HasId(rows, id) && Signed(Chain(rows, tenant))
    ensures var after := CompactedTable(rule, rows, tenant, cutoff, id, now);
      && Chain(after.0, other) ==
        (if other == tenant then CompactedChain(rule, Chain(rows, tenant), tenant, cutoff, id, now)
          else Chain(rows, other))
      && after.1.Done? && after.1.count == |Selected(Chain(rows, tenant), cutoff)|
  {
    var chain := Chain(rows, tenant);
    ChainStrict(rows, tenant);
    var tomb := Selected(chain, cutoff);
    if !HasOld(chain, cutoff) {
      SelectedNone(chain, cutoff);
    } else {
      SelectedEnds(chain, cutoff);
      CutParts(chain, cutoff);
      var left := Survivors(rows, tenant, cutoff);
      SurvivorsFrom(rows, tenant, cutoff);
      SurvivorsLackId(rows, left, id);
      var cr := BridgeRow(rule, Lower(chain, tomb[0].seqNo), tomb, |tomb|, tenant, cutoff, id, now);
      assert cr == BridgeRow(rule, Below(chain, cutoff), Stretch(chain, cutoff), |tomb|, tenant, cutoff, id, now);
      SurvivorsWithRecord(rule, rows, tenant, cutoff, cr, other);
      if other == tenant {
        CompactedSorted(rule, chain, tenant, cutoff, id, now);
        ChainIs(left + [cr], tenant, CompactedChain(rule, chain, tenant, cutoff, id, now));
      }
    }
  }

  lemma SurvivorsWithRecord(rule: Rule, rows: seq<Row>, tenant: string, cutoff: int, cr: Row, other: string)
    requires cr.tenant == tenant && HasOld(Chain(rows, tenant), cutoff)
    ensures var chain, left := Chain(rows, tenant), Survivors(rows, tenant, cutoff);
      if other == tenant then
        multiset(ForTenant(left + [cr], tenant))
          == multiset(Below(chain, cutoff) + [cr] + Kept(Stretch(chain, cutoff), cutoff) + Above(chain, cutoff))
      else Chain(left + [cr], other) == Chain(rows, other)
  {
    var chain, left := Chain(rows, tenant), Survivors(rows, tenant, cutoff);
    SurvivorsOf(rows, tenant, cutoff, other);
    if other == tenant {
      ForTenantConcat(left, [cr], tenant);
      assert [cr][1..] == [];
      assert ForTenant([cr], tenant) == [cr];
      OrderByKeepsElements(ForTenant(rows, tenant), SeqBefore);
      KeptSameRows(ForTenant(rows, tenant), chain, cutoff);
      KeptParts(chain, cutoff);
    } else {
      ChainOfInsert(left, cr, other);
    }
  }

  lemma SurvivorsLackId(rows: seq<Row>, left: seq<Row>, id: string)
    requires !HasId(rows, id) && forall r :: r in left ==> r in rows
    ensures !HasId(left, id)
  {
    forall i | 0 <= i < |left| ensures left[i].id != id { assert left[i] in rows; }
  }

  lemma CompactedTableKeyed(rule: Rule, rows: seq<Row>, tenant: string, cutoff: int, id: string, now: int)
    requires Keyed(rows) && Slotted(rows) && !HasId(rows, id)
    ensures var after := CompactedTable(rule, rows, tenant, cutoff, id, now).0; Keyed(after) && Slotted(after)
  {
    var chain := Chain(rows, tenant);
    var tomb := Selected(chain, cutoff);
    SurvivorsFrom(rows, tenant, cutoff);
    var left := Survivors(rows, tenant, cutoff);
    SurvivorsLackId(rows, left, id);
    if tomb != [] {
      SelectedIsOld(chain, cutoff);
      ChainRows(rows, tenant, tomb[0]);
      forall i | 0 <= i < |left| && left[i].tenant == tenant ensures left[i].seqNo != tomb[0].seqNo {
        SurvivorYoung(rows, tenant, cutoff, i);
        assert left[i] in rows;
      }
    }
  }

  lemma {:induction false} SelectedIsOld(chain: seq<Row>, cutoff: int)
    ensures var tomb := Selected(chain, cutoff); tomb != [] ==> Old(tomb[0], cutoff) && tomb[0] in chain
  {
    if chain != [] { SelectedIsOld(chain[1..], cutoff); }
  }

  lemma {:induction false} SurvivorYoung(rows: seq<Row>, tenant: string, cutoff: int, i: nat)
    requires i < |Survivors(rows, tenant, cutoff)|
    ensures var r := Survivors(rows, tenant, cutoff)[i]; r.tenant == tenant ==> !Old(r, cutoff)
  {
    if rows != [] {
      if rows[0].tenant == tenant && Old(rows[0], cutoff) {
        SurvivorYoung(rows[1..], tenant, cutoff, i);
      } else if i > 0 {
        SurvivorYoung(rows[1..], tenant, cutoff, i - 1);
      }
    }
  }

  lemma {:induction false} KeptOrSelected(chain: seq<Row>, cutoff: int)
    ensures |Kept(chain, cutoff)| + |Selected(chain, cutoff)| == |chain|
  {
    if chain != [] { KeptOrSelected(chain[1..], cutoff); }
  }

  lemma {:induction false} SurvivorsCount(rows: seq<Row>, tenant: string, cutoff: int)
    ensures |Survivors(rows, tenant, cutoff)| + |Selected(ForTenant(rows, tenant), cutoff)| == |rows|
  {
    if rows != [] { SurvivorsCount(rows[1..], tenant, cutoff); }
  }

  lemma SelectedSameCount(p: seq<Row>, q: seq<Row>, cutoff: int)
    requires multiset(p) == multiset(q)
    ensures |Selected(p, cutoff)| == |Selected(q, cutoff)|
  {
    KeptOrSelected(p, cutoff);
    KeptOrSelected(q, cutoff);
    KeptSameRows(p, q, cutoff);
    SameSize(p, q);
    SameSize(Kept(p, cutoff), Kept(q, cutoff));
  }

  lemma SameSize(p: seq<Row>, q: seq<Row>)
    requires multiset(p) == multiset(q)
    ensures |p| == |q|
  {
    assert |multiset(p)| == |p| && |multiset(q)| == |q|;
  }

  lemma DeletedCount(rows: seq<Row>, tenant: string, cutoff: int)
    ensures |Survivors(rows, tenant, cutoff)| + |Selected(Chain(rows, tenant), cutoff)| == |rows|
  {
    SurvivorsCount(rows, tenant, cutoff);
    OrderByKeepsElements(ForTenant(rows, tenant), SeqBefore);
    SelectedSameCount(ForTenant(rows, tenant), Chain(rows, tenant), cutoff);
  }

  /** Nothing is lost in the count: a pass that deletes `n` rows leaves the table `n - 1`
      rows shorter, its record standing for the rest, and reports `n`. A pass whose insert
      fails has still deleted them. */
  lemma CompactedCount(rule: Rule, rows: seq<Row>, tenant: string, cutoff: int, id: string, now: int)
    ensures var after := CompactedTable(rule, rows, tenant, cutoff, id, now);
      match after.1
      case Done(n, _) =>
        n == (if tenant == "" then 0 else |Selected(Chain(rows, tenant), cutoff)|) &&
          |after.0| == |rows| - if n == 0 then 0 else n - 1
      case InsertFailed => |after.0| == |rows| - |Selected(Chain(rows, tenant), cutoff)|
      case _ => after.0 == rows
  {
    DeletedCount(rows, tenant, cutoff);
  }
}
