/** What appending, compacting and backfilling store, told from the rows of the table alone. */
module AuditStatements {
  import opened Ordering
  import opened Sequences
  import opened AuditRecord
  import opened AuditChain
  import opened AuditTable
  import opened AuditBackfill

  // ---- Rows by slot ----

  predicate TopOf(rows: seq<Row>, tenant: string, top: Row) {
    top in rows && top.tenant == tenant && forall r :: r in rows && r.tenant == tenant ==> r.seqNo <= top.seqNo
  }

  lemma LastIsTop(rows: seq<Row>, tenant: string)
    ensures Chain(rows, tenant) == [] <==> forall r :: r in rows ==> r.tenant != tenant
    ensures Chain(rows, tenant) != [] ==> TopOf(rows, tenant, Last(Chain(rows, tenant)))
  {
    var chain := Chain(rows, tenant);
    ChainSorted(rows, tenant);
    forall r ensures r in chain <==> r in rows && r.tenant == tenant { ChainRows(rows, tenant, r); }
    if chain != [] {
      assert Last(chain) in chain;
      forall r | r in rows && r.tenant == tenant ensures r.seqNo <= Last(chain).seqNo {
        assert r in chain;
        var i :| 0 <= i < |chain| && chain[i] == r;
        if i < |chain| - 1 { assert !SeqBefore(chain[|chain| - 1], chain[i]); }
      }
    }
  }

  // ---- Append ----

  /** The row's columns are what the caller passed. */
  predicate Holds(r: Row, tenant: string, user: string, action: string, resourceType: string, resourceId: string,
                  details: Details, ip: string, id: string, now: int)
  {
    && r.id == id && r.tenant == tenant && r.user == user && r.action == action && r.resourceType == resourceType
    && r.resourceId == resourceId && r.details == details && r.ip == ip && r.createdAt == now
  }

  /** What the next row is signed over: the signature that a compaction record carries, if it
      carries one, and otherwise the row's own. */
  predicate HandsOver(r: Row, h: Sig) {
    if r.action == "audit.compaction" && r.details.Compacted? && r.details.bridge.endSig != Unsigned
    then h == r.details.bridge.endSig
    else h == r.sig
  }

  /** Signed over the tenant's top row and one slot above it, or the first of its tenant. */
  ghost predicate OnTop(rows: seq<Row>, r: Row) {
    if forall q :: q in rows ==> q.tenant != r.tenant then r.seqNo == 1 && r.sig == Mac(Unsigned, Payload(r))
    else exists top ::
      && TopOf(rows, r.tenant, top) && r.seqNo == top.seqNo + 1
      && r.sig.Mac? && HandsOver(top, r.sig.prev) && r.sig.payload == Payload(r)
  }

  /** An append with a fresh id adds one row that holds what was passed, on top of its tenant's
      rows; with a taken id it adds none. */
  ghost predicate Appends(rows: seq<Row>, after: seq<Row>, tenant: string, user: string, action: string,
                          resourceType: string, resourceId: string, details: Details, ip: string, id: string,
                          now: int)
  {
    if exists r :: r in rows && r.id == id then after == rows
    else
      && |after| == |rows| + 1 && Front(after) == rows && OnTop(rows, Last(after))
      && Holds(Last(after), if tenant == "" then "default" else tenant, user, action, resourceType, resourceId,
           details, ip, id, now)
  }

  lemma AppendStores(rows: seq<Row>, tenant: string, user: string, action: string, resourceType: string,
                     resourceId: string, details: Details, ip: string, id: string, now: int)
    ensures Appends(rows, Appended(rows, Draft(tenant, user, action, resourceType, resourceId, details, ip, id, now)),
                    tenant, user, action, resourceType, resourceId, details, ip, id, now)
  {
    var draft := Draft(tenant, user, action, resourceType, resourceId, details, ip, id, now);
    var r := NewRow(Chain(rows, draft.tenant), draft);
    HasIdIs(rows, id);
    NewRowOnTop(rows, draft);
    assert Front(rows + [r]) == rows;
  }

  lemma HasIdIs(rows: seq<Row>, id: string)
    ensures HasId(rows, id) <==> exists r :: r in rows && r.id == id
  {
    if r :| r in rows && r.id == id {
      var i :| 0 <= i < |rows| && rows[i] == r;
    }
  }

  lemma NewRowOnTop(rows: seq<Row>, draft: Row)
    ensures var r := NewRow(Chain(rows, draft.tenant), draft);
      OnTop(rows, r) && r == draft.(sig := r.sig, seqNo := r.seqNo)
  {
    LastIsTop(rows, draft.tenant);
  }

  // ---- Compaction ----

  predicate Goes(r: Row, tenant: string, cutoff: int) {
    r.tenant == tenant && r.createdAt < cutoff
  }

  predicate LowestGone(rows: seq<Row>, tenant: string, cutoff: int, first: Row) {
    && first in rows && Goes(first, tenant, cutoff)
    && forall r :: r in rows && Goes(r, tenant, cutoff) ==> first.seqNo <= r.seqNo
  }

  predicate HighestGone(rows: seq<Row>, tenant: string, cutoff: int, last: Row) {
    && last in rows && Goes(last, tenant, cutoff)
    && forall r :: r in rows && Goes(r, tenant, cutoff) ==> r.seqNo <= last.seqNo
  }

  /** The tenant's next row below a slot. */
  predicate RightBelow(rows: seq<Row>, tenant: string, slot: int, p: Row) {
    && p in rows && p.tenant == tenant && p.seqNo < slot
    && forall r :: r in rows && r.tenant == tenant && r.seqNo < slot ==> r.seqNo <= p.seqNo
  }

  /** The signature stored on the row right below the slot, if there is one. */
  ghost predicate SignedOver(rows: seq<Row>, tenant: string, slot: int, sig: Sig) {
    if forall r :: r in rows && r.tenant == tenant ==> slot <= r.seqNo then sig == Unsigned
    else exists p :: RightBelow(rows, tenant, slot, p) && sig == p.sig
  }

  predicate SignedEnds(rows: seq<Row>, tenant: string, cutoff: int, first: Row, last: Row) {
    && LowestGone(rows, tenant, cutoff, first) && HighestGone(rows, tenant, cutoff, last)
    && first.sig != Unsigned && last.sig != Unsigned
  }

  /** What the record tells of the rows that went: the ids of the lowest and of the highest, how
      many there were, the cutoff, and the highest one's signature; and it stands where the
      lowest one stood. */
  predicate TellsOf(rows: seq<Row>, record: Row, tenant: string, cutoff: int, first: Row, last: Row) {
    && SignedEnds(rows, tenant, cutoff, first, last) && record.seqNo == first.seqNo
    && record.details ==
         Compacted(Bridge(first.id, last.id, |set r | r in rows && Goes(r, tenant, cutoff)|, last.sig, cutoff))
  }

  /** The record of a pass. */
  ghost predicate Records(rows: seq<Row>, record: Row, tenant: string, cutoff: int, id: string, now: int) {
    && record.id == id && record.tenant == tenant && record.createdAt == now
    && record.user == "system" && record.action == "audit.compaction"
    && record.resourceType == "audit_log" && record.resourceId == "" && record.ip == ""
    && (exists first, last :: TellsOf(rows, record, tenant, cutoff, first, last))
    && record.sig.Mac? && record.sig.payload == Payload(record)
    && SignedOver(rows, tenant, record.seqNo, record.sig.prev)
  }

  /** Exactly the tenant's old rows have gone. */
  ghost predicate OldGone(rows: seq<Row>, left: seq<Row>, tenant: string, cutoff: int) {
    forall r :: multiset(left)[r] == if Goes(r, tenant, cutoff) then 0 else multiset(rows)[r]
  }

  predicate UnsignedEnd(rows: seq<Row>, tenant: string, cutoff: int, r: Row) {
    (LowestGone(rows, tenant, cutoff, r) || HighestGone(rows, tenant, cutoff, r)) && r.sig == Unsigned
  }

  /** The table after a pass for every answer it can give. */
  ghost predicate Compacts(rows: seq<Row>, after: seq<Row>, tenant: string, cutoff: int, id: string, now: int,
                     outcome: Outcome)
  {
    match outcome
    case TenantRequired => tenant == "" && after == rows
    case UnsignedRange => tenant != "" && after == rows && exists r :: UnsignedEnd(rows, tenant, cutoff, r)
    case InsertFailed =>
      && tenant != "" && OldGone(rows, after, tenant, cutoff)
      && (exists first, last :: SignedEnds(rows, tenant, cutoff, first, last))
      && exists r :: r in rows && r.id == id && !Goes(r, tenant, cutoff)
    case Done(n, recordId) =>
      && tenant != "" && n == |set r | r in rows && Goes(r, tenant, cutoff)|
      && if n == 0 then after == rows && recordId == ""
         else
           && recordId == id && after != [] && OldGone(rows, Front(after), tenant, cutoff)
           && Records(rows, Last(after), tenant, cutoff, id, now)
  }

  lemma {:induction false} KeyedSelected(chain: seq<Row>, cutoff: int)
    requires Keyed(chain)
    ensures Keyed(Selected(chain, cutoff))
    ensures forall r :: r in Selected(chain, cutoff) <==> r in chain && Old(r, cutoff)
  {
    if chain != [] {
      KeyedSelected(chain[1..], cutoff);
      assert forall r :: r in chain <==> r == chain[0] || r in chain[1..];
      var tomb := Selected(chain[1..], cutoff);
      forall k | 0 <= k < |tomb| ensures tomb[k].id != chain[0].id { assert tomb[k] in chain[1..]; }
    }
  }

  function RowSet(rows: seq<Row>): set<Row> {
    set r | r in rows
  }

  lemma {:induction false} KeyedSize(rows: seq<Row>)
    requires Keyed(rows)
    ensures |RowSet(rows)| == |rows|
  {
    if rows == [] {
      assert RowSet(rows) == {};
    } else {
      KeyedSize(rows[1..]);
      assert rows[0] !in rows[1..];
      assert RowSet(rows) == RowSet(rows[1..]) + {rows[0]};
    }
  }

  lemma {:induction false} SurvivorsLeft(rows: seq<Row>, tenant: string, cutoff: int)
    ensures OldGone(rows, Survivors(rows, tenant, cutoff), tenant, cutoff)
  {
    if rows != [] {
      SurvivorsLeft(rows[1..], tenant, cutoff);
      assert rows == [rows[0]] + rows[1..];
    }
  }

  lemma {:induction false} LowerRows(chain: seq<Row>, slot: int)
    requires Sorted(chain, SeqBefore)
    ensures Sorted(Lower(chain, slot), SeqBefore)
    ensures forall r :: r in Lower(chain, slot) <==> r in chain && r.seqNo < slot
  {
    if chain != [] {
      LowerRows(chain[1..], slot);
      assert forall r :: r in chain <==> r == chain[0] || r in chain[1..];
      var rest := Lower(chain[1..], slot);
      forall k | 0 <= k < |rest| ensures !SeqBefore(rest[k], chain[0]) {
        assert rest[k] in chain[1..];
        var i :| 0 <= i < |chain[1..]| && chain[1..][i] == rest[k];
        assert chain[i + 1] == rest[k];
      }
    }
  }

  lemma {:induction false} SelectedSorted(chain: seq<Row>, cutoff: int)
    requires Sorted(chain, SeqBefore)
    ensures Sorted(Selected(chain, cutoff), SeqBefore)
    ensures forall r :: r in Selected(chain, cutoff) ==> r in chain
  {
    if chain != [] {
      SelectedSorted(chain[1..], cutoff);
      assert forall r :: r in chain[1..] ==> r in chain;
      var rest := Selected(chain[1..], cutoff);
      forall k | 0 <= k < |rest| ensures !SeqBefore(rest[k], chain[0]) {
        assert rest[k] in chain[1..];
        var i :| 0 <= i < |chain[1..]| && chain[1..][i] == rest[k];
        assert chain[i + 1] == rest[k];
      }
    }
  }

  /** In slot order the first and the last element hold the lowest and the highest slot. */
  lemma SortedEnds(q: seq<Row>)
    requires q != [] && Sorted(q, SeqBefore)
    ensures forall r :: r in q ==> q[0].seqNo <= r.seqNo <= Last(q).seqNo
  {
    forall r | r in q ensures q[0].seqNo <= r.seqNo <= Last(q).seqNo {
      var i :| 0 <= i < |q| && q[i] == r;
      if i > 0 { assert !SeqBefore(q[i], q[0]); }
      if i < |q| - 1 { assert !SeqBefore(q[|q| - 1], q[i]); }
    }
  }

  /** The rows a pass selects: which they are, how many, and which are the outermost. */
  lemma SelectedAre(rows: seq<Row>, tenant: string, cutoff: int)
    requires Keyed(rows)
    ensures var tomb := Selected(Chain(rows, tenant), cutoff);
      && (forall r :: r in tomb <==> r in rows && Goes(r, tenant, cutoff))
      && |tomb| == |set r | r in rows && Goes(r, tenant, cutoff)|
      && (tomb != [] ==>
            LowestGone(rows, tenant, cutoff, tomb[0]) && HighestGone(rows, tenant, cutoff, Last(tomb)))
  {
    var chain := Chain(rows, tenant);
    var tomb := Selected(chain, cutoff);
    ChainSorted(rows, tenant);
    ChainKeyed(rows, tenant);
    KeyedSelected(chain, cutoff);
    KeyedSize(tomb);
    forall r ensures r in tomb <==> r in rows && Goes(r, tenant, cutoff) { ChainRows(rows, tenant, r); }
    assert RowSet(tomb) == set r | r in rows && Goes(r, tenant, cutoff);
    if tomb != [] {
      SelectedSorted(chain, cutoff);
      SortedEnds(tomb);
      assert tomb[0] in tomb && Last(tomb) in tomb;
    }
  }

  lemma {:induction false} ForTenantKeyed(rows: seq<Row>, tenant: string)
    requires Keyed(rows)
    ensures Keyed(ForTenant(rows, tenant))
    ensures forall r :: r in ForTenant(rows, tenant) <==> r in rows && r.tenant == tenant
  {
    if rows != [] {
      ForTenantKeyed(rows[1..], tenant);
      assert forall r :: r in rows <==> r == rows[0] || r in rows[1..];
      var q := ForTenant(rows[1..], tenant);
      forall k | 0 <= k < |q| ensures q[k].id != rows[0].id { assert q[k] in rows[1..]; }
    }
  }

  lemma ChainKeyed(rows: seq<Row>, tenant: string)
    requires Keyed(rows)
    ensures Keyed(Chain(rows, tenant))
  {
    ForTenantKeyed(rows, tenant);
    ChainSorted(rows, tenant);
    KeyedByCount(ForTenant(rows, tenant), Chain(rows, tenant));
  }

  lemma LowerSigns(rows: seq<Row>, tenant: string, slot: int)
    ensures SignedOver(rows, tenant, slot, SigBelow(OwnSignature, Lower(Chain(rows, tenant), slot)))
  {
    var chain := Chain(rows, tenant);
    var below := Lower(chain, slot);
    ChainSorted(rows, tenant);
    LowerRows(chain, slot);
    forall r ensures r in below <==> r in rows && r.tenant == tenant && r.seqNo < slot {
      ChainRows(rows, tenant, r);
    }
    if below != [] {
      SortedEnds(below);
      assert Last(below) in below;
      assert RightBelow(rows, tenant, slot, Last(below));
    }
  }

  /** The pass as it is, in every outcome. */
  lemma CompactStores(rows: seq<Row>, tenant: string, cutoff: int, id: string, now: int)
    requires Keyed(rows)
    ensures var (after, outcome) := CompactedTable(OwnSignature, rows, tenant, cutoff, id, now);
      Compacts(rows, after, tenant, cutoff, id, now, outcome)
  {
    var chain := Chain(rows, tenant);
    var tomb := Selected(chain, cutoff);
    var left := Survivors(rows, tenant, cutoff);
    SelectedAre(rows, tenant, cutoff);
    SurvivorsLeft(rows, tenant, cutoff);
    if tenant != "" && tomb != [] {
      if tomb[0].sig == Unsigned || Last(tomb).sig == Unsigned {
        assert UnsignedEnd(rows, tenant, cutoff, if tomb[0].sig == Unsigned then tomb[0] else Last(tomb));
      } else if HasId(left, id) {
        LeftHasId(rows, left, tenant, cutoff, id);
        assert SignedEnds(rows, tenant, cutoff, tomb[0], Last(tomb));
      } else {
        RecordStored(rows, tenant, cutoff, id, now);
        var record := BridgeRow(OwnSignature, Lower(chain, tomb[0].seqNo), tomb, |tomb|, tenant, cutoff, id, now);
        Topped(left, record);
      }
    }
  }

  lemma Topped<T>(s: seq<T>, x: T)
    ensures Front(s + [x]) == s && Last(s + [x]) == x
  {
  }

  lemma LeftHasId(rows: seq<Row>, left: seq<Row>, tenant: string, cutoff: int, id: string)
    requires OldGone(rows, left, tenant, cutoff) && HasId(left, id)
    ensures exists r :: r in rows && r.id == id && !Goes(r, tenant, cutoff)
  {
    var i :| 0 <= i < |left| && left[i].id == id;
    assert left[i] in multiset(left);
    assert left[i] in multiset(rows);
  }

  lemma RecordStored(rows: seq<Row>, tenant: string, cutoff: int, id: string, now: int)
    requires Keyed(rows) && Selected(Chain(rows, tenant), cutoff) != []
    requires var tomb := Selected(Chain(rows, tenant), cutoff); tomb[0].sig != Unsigned && Last(tomb).sig != Unsigned
    ensures var tomb := Selected(Chain(rows, tenant), cutoff);
      var record := BridgeRow(OwnSignature, Lower(Chain(rows, tenant), tomb[0].seqNo), tomb, |tomb|, tenant, cutoff,
                              id, now);
      Records(rows, record, tenant, cutoff, id, now)
  {
    var tomb := Selected(Chain(rows, tenant), cutoff);
    var record := BridgeRow(OwnSignature, Lower(Chain(rows, tenant), tomb[0].seqNo), tomb, |tomb|, tenant, cutoff, id,
                            now);
    SelectedAre(rows, tenant, cutoff);
    LowerSigns(rows, tenant, tomb[0].seqNo);
    assert TellsOf(rows, record, tenant, cutoff, tomb[0], Last(tomb));
  }

  // ---- Backfill ----

  /** Not after the other in time, and by id at one time. */
  predicate NoLater(a: Row, b: Row) {
    a.createdAt < b.createdAt || (a.createdAt == b.createdAt && (a.id == b.id || TextBefore(a.id, b.id)))
  }

  /** How many of the tenant's rows come up to this one. */
  function Rank(rows: seq<Row>, r: Row): nat {
    |set q | q in rows && q.tenant == r.tenant && NoLater(q, r)|
  }

  /** A row of the table and what the walk has made of it: nothing but its signature and its slot
      may change. If it lacked one of the two its slot is its rank; if it was not signed, it is
      signed over the tenant's next row before it, as the walk has left that one. */
  predicate Fills(rows: seq<Row>, after: seq<Row>, r: Row, s: Row) {
    && s == r.(sig := s.sig, seqNo := s.seqNo)
    && (r.sig != Unsigned && r.seqNo != 0 ==> s == r)
    && (r.sig == Unsigned || r.seqNo == 0 ==> s.seqNo == Rank(rows, r))
    && (r.sig != Unsigned ==> s.sig == r.sig)
    && (r.sig == Unsigned ==> s.sig.Mac? && s.sig.payload == Payload(r) && FollowsUp(rows, after, r, s.sig.prev))
  }

  /** The head that the tenant's next row before this one hands over. */
  predicate FollowsUp(rows: seq<Row>, after: seq<Row>, r: Row, h: Sig) {
    if Rank(rows, r) == 1 then h == Unsigned
    else exists p :: p in after && p.tenant == r.tenant && Rank(rows, p) == Rank(rows, r) - 1 && HandsOver(p, h)
  }

  ghost predicate Filled(rows: seq<Row>, after: seq<Row>, r: Row) {
    exists s :: s in after && Fills(rows, after, r, s)
  }

  lemma {:induction false} StampedAt(h: Sig, n: int, walk: seq<Row>, k: nat)
    requires k < |walk|
    ensures var chain := StampedTenant(h, n, walk);
      |chain| == |walk| && chain[k] == Stamp(walk[k], if k == 0 then h else Next(chain[k - 1]), n + k + 1)
    decreases walk
  {
    var r := Stamp(walk[0], h, n + 1);
    var rest := StampedTenant(Next(r), n + 1, walk[1..]);
    assert StampedTenant(h, n, walk) == [r] + rest;
    if k > 0 {
      StampedAt(Next(r), n + 1, walk[1..], k - 1);
    } else {
      StampedSlots(h, n, walk);
    }
  }

  lemma {:induction false} ForTenantOrdered(walk: seq<Row>, tenant: string)
    requires StrictlySorted(walk, WalkBefore)
    ensures StrictlySorted(ForTenant(walk, tenant), WalkBefore)
    ensures forall r :: r in ForTenant(walk, tenant) <==> r in walk && r.tenant == tenant
  {
    if walk != [] {
      ForTenantOrdered(walk[1..], tenant);
      assert forall r :: r in walk <==> r == walk[0] || r in walk[1..];
      var q := ForTenant(walk[1..], tenant);
      forall k | 0 <= k < |q| ensures WalkBefore(walk[0], q[k]) {
        assert q[k] in walk[1..];
        var i :| 0 <= i < |walk[1..]| && walk[1..][i] == q[k];
        assert walk[i + 1] == q[k];
      }
    }
  }

  lemma WalkApart(q: seq<Row>, i: nat, j: nat)
    requires StrictlySorted(q, WalkBefore) && i < j < |q|
    ensures q[i] != q[j]
  {
    TextBeforeIrreflexive(q[i].tenant);
    TextBeforeIrreflexive(q[i].id);
    assert WalkBefore(q[i], q[j]);
  }

  lemma NotInFront(q: seq<Row>, k: nat, i: nat)
    requires StrictlySorted(q, WalkBefore) && k <= i < |q|
    ensures q[i] !in q[..k]
  {
    var front := q[..k];
    forall j | 0 <= j < k ensures front[j] != q[i] { WalkApart(q, j, i); }
  }

  lemma {:induction false} PrefixSize(q: seq<Row>, k: nat)
    requires StrictlySorted(q, WalkBefore) && k <= |q|
    ensures |RowSet(q[..k])| == k
  {
    if k == 0 {
      assert RowSet(q[..k]) == {};
    } else {
      PrefixSize(q, k - 1);
      assert q[..k] == q[..k - 1] + [q[k - 1]];
      NotInFront(q, k - 1, k - 1);
      assert RowSet(q[..k]) == RowSet(q[..k - 1]) + {q[k - 1]};
    }
  }

  lemma OneTenantOrder(a: Row, b: Row)
    requires a.tenant == b.tenant && WalkBefore(a, b)
    ensures NoLater(a, b) && !NoLater(b, a)
  {
    TextBeforeIrreflexive(a.tenant);
    TextBeforeIrreflexive(a.id);
    if TextBefore(a.id, b.id) && TextBefore(b.id, a.id) { TextBeforeTransitive(a.id, b.id, a.id); }
  }

  /** A row's place in its tenant's part of the walk is its rank. */
  lemma PlaceIsRank(rows: seq<Row>, q: seq<Row>, k: nat)
    requires StrictlySorted(q, WalkBefore) && k < |q|
    requires forall r :: r in q <==> r in rows && r.tenant == q[k].tenant
    ensures Rank(rows, q[k]) == k + 1
  {
    PrefixSize(q, k + 1);
    forall r ensures r in q[..k + 1] <==> r in rows && r.tenant == q[k].tenant && NoLater(r, q[k]) {
      if r in q {
        var i :| 0 <= i < |q| && q[i] == r;
        assert q[i] in q && q[k] in q;
        if i < k {
          OneTenantOrder(q[i], q[k]);
        } else if i > k {
          OneTenantOrder(q[k], q[i]);
          NotInFront(q, k + 1, i);
        }
        assert i <= k ==> q[..k + 1][i] == r;
      }
    }
    assert RowSet(q[..k + 1]) == set r | r in rows && r.tenant == q[k].tenant && NoLater(r, q[k]);
  }

  lemma SameRank(rows: seq<Row>, r: Row, s: Row)
    requires r.tenant == s.tenant && r.createdAt == s.createdAt && r.id == s.id
    ensures Rank(rows, r) == Rank(rows, s)
  {
    assert (set q | q in rows && q.tenant == r.tenant && NoLater(q, r)) ==
      set q | q in rows && q.tenant == s.tenant && NoLater(q, s);
  }

  /** The backfill, row by row. */
  lemma BackfillStores(rows: seq<Row>, after: seq<Row>)
    requires Keyed(rows) && multiset(after) == multiset(Stamped(map[], map[], Walk(rows)))
    ensures |after| == |rows| && forall r :: r in rows ==> Filled(rows, after, r)
  {
    WalkStrict(rows);
    StampedSameKeys(map[], map[], Walk(rows));
    SameSize(Walk(rows), rows);
    SameSize(after, Stamped(map[], map[], Walk(rows)));
    forall r | r in rows ensures Filled(rows, after, r) {
      var s := RowStamped(rows, after, r);
    }
  }

  lemma RowStamped(rows: seq<Row>, after: seq<Row>, r: Row) returns (s: Row)
    requires Keyed(rows) && multiset(after) == multiset(Stamped(map[], map[], Walk(rows))) && r in rows
    ensures s in after && Fills(rows, after, r, s)
  {
    var q := ForTenant(Walk(rows), r.tenant);
    TenantWalk(rows, r.tenant);
    var k :| 0 <= k < |q| && q[k] == r;
    StampedAt(Unsigned, 0, q, k);
    s := StampedTenant(Unsigned, 0, q)[k];
    StampedStored(rows, after, r.tenant, k);
    PlaceIsRank(rows, q, k);
    HeadAt(rows, after, q, k);
  }

  /** The head at a place of the walk. */
  lemma HeadAt(rows: seq<Row>, after: seq<Row>, q: seq<Row>, k: nat)
    requires Keyed(rows) && multiset(after) == multiset(Stamped(map[], map[], Walk(rows))) && k < |q|
    requires q == ForTenant(Walk(rows), q[k].tenant)
    ensures |StampedTenant(Unsigned, 0, q)| == |q|
    ensures FollowsUp(rows, after, q[k], if k == 0 then Unsigned else Next(StampedTenant(Unsigned, 0, q)[k - 1]))
  {
    TenantWalk(rows, q[k].tenant);
    StampedAt(Unsigned, 0, q, k);
    PlaceIsRank(rows, q, k);
    if k > 0 {
      StampedStored(rows, after, q[k].tenant, k - 1);
      StampedRank(rows, q, k - 1, q[k].tenant);
      HeadHanded(rows, after, q[k], StampedTenant(Unsigned, 0, q)[k - 1]);
    }
  }

  lemma StampedRank(rows: seq<Row>, q: seq<Row>, k: nat, tenant: string)
    requires StrictlySorted(q, WalkBefore) && k < |q| && forall r :: r in q <==> r in rows && r.tenant == tenant
    ensures |StampedTenant(Unsigned, 0, q)| == |q|
    ensures var p := StampedTenant(Unsigned, 0, q)[k]; p.tenant == tenant && Rank(rows, p) == k + 1
  {
    assert q[k] in q;
    StampedAt(Unsigned, 0, q, k);
    PlaceIsRank(rows, q, k);
    SameRank(rows, q[k], StampedTenant(Unsigned, 0, q)[k]);
  }

  lemma HeadHanded(rows: seq<Row>, after: seq<Row>, r: Row, p: Row)
    requires p in after && p.tenant == r.tenant && Rank(rows, r) > 1 && Rank(rows, p) == Rank(rows, r) - 1
    ensures FollowsUp(rows, after, r, Next(p))
  {
  }

  lemma TenantWalk(rows: seq<Row>, tenant: string)
    requires Keyed(rows)
    ensures var q := ForTenant(Walk(rows), tenant);
      StrictlySorted(q, WalkBefore) && forall r :: r in q <==> r in rows && r.tenant == tenant
  {
    WalkStrict(rows);
    ForTenantOrdered(Walk(rows), tenant);
    forall r ensures r in Walk(rows) <==> r in rows {
      assert r in Walk(rows) <==> r in multiset(Walk(rows));
      assert r in rows <==> r in multiset(rows);
    }
  }

  lemma StampedStored(rows: seq<Row>, after: seq<Row>, tenant: string, k: nat)
    requires Keyed(rows) && multiset(after) == multiset(Stamped(map[], map[], Walk(rows)))
    requires k < |StampedTenant(Unsigned, 0, ForTenant(Walk(rows), tenant))|
    ensures StampedTenant(Unsigned, 0, ForTenant(Walk(rows), tenant))[k] in after
  {
    var stamped := Stamped(map[], map[], Walk(rows));
    var s := StampedTenant(Unsigned, 0, ForTenant(Walk(rows), tenant))[k];
    StampedForTenant(map[], map[], Walk(rows), tenant);
    ForTenantCount(stamped, tenant, s);
    assert s in multiset(ForTenant(stamped, tenant));
    assert s in multiset(after);
  }
}
