/** The audit log service: one table, one lock, four entry points. */
module AuditLog {
  import opened Sequences
  import opened AuditRecord
  import opened AuditChain
  import opened AuditTable
  import opened AuditBackfill
  import opened AuditStatements

  lemma {:induction false} WithoutTwice(rows: seq<Row>, ids: set<string>, more: set<string>)
    ensures Without(Without(rows, ids), more) == Without(rows, ids + more)
  {
    if rows != [] { WithoutTwice(rows[1..], ids, more); }
  }

  lemma {:induction false} WithoutNone(rows: seq<Row>)
    ensures Without(rows, {}) == rows
  {
    if rows != [] {
      WithoutNone(rows[1..]);
      assert rows == [rows[0]] + rows[1..];
    }
  }

  /** Deleting the selected rows by id deletes the tenant's old rows and no others. */
  lemma {:induction false} WithoutSelected(rows: seq<Row>, tenant: string, cutoff: int, ids: set<string>)
    requires forall k :: 0 <= k < |rows| ==> (rows[k].id in ids <==> rows[k].tenant == tenant && Old(rows[k], cutoff))
    ensures Without(rows, ids) == Survivors(rows, tenant, cutoff)
  {
    if rows != [] {
      forall k | 0 <= k < |rows[1..]|
        ensures rows[1..][k].id in ids <==> rows[1..][k].tenant == tenant && Old(rows[1..][k], cutoff)
      {
        assert rows[1..][k] == rows[k + 1];
      }
      WithoutSelected(rows[1..], tenant, cutoff, ids);
    }
  }

  lemma {:induction false} SelectedRows(chain: seq<Row>, cutoff: int, r: Row)
    ensures r in Selected(chain, cutoff) <==> r in chain && Old(r, cutoff)
  {
    if chain != [] {
      SelectedRows(chain[1..], cutoff, r);
      assert r in chain <==> r == chain[0] || r in chain[1..];
    }
  }

  lemma SelectedIds(rows: seq<Row>, tenant: string, cutoff: int, k: nat)
    requires Keyed(rows) && k < |rows|
    ensures rows[k].id in Ids(Selected(Chain(rows, tenant), cutoff)) <==>
      rows[k].tenant == tenant && Old(rows[k], cutoff)
  {
    var tomb := Selected(Chain(rows, tenant), cutoff);
    SelectedRows(Chain(rows, tenant), cutoff, rows[k]);
    ChainRows(rows, tenant, rows[k]);
    if HasId(tomb, rows[k].id) {
      var i :| 0 <= i < |tomb| && tomb[i].id == rows[k].id;
      SelectedRows(Chain(rows, tenant), cutoff, tomb[i]);
      ChainRows(rows, tenant, tomb[i]);
      var m :| 0 <= m < |rows| && rows[m] == tomb[i];
      assert m == k;
    }
    if rows[k] in tomb {
      var i :| 0 <= i < |tomb| && tomb[i] == rows[k];
    }
  }

  /** `UPDATE ... SET signature = ?, chain_seq = ? WHERE id = ?`. */
  function Updated(rows: seq<Row>, id: string, sig: Sig, seqNo: int): seq<Row> {
    if rows == [] then []
    else if rows[0].id == id then [rows[0].(sig := sig, seqNo := seqNo)] + Updated(rows[1..], id, sig, seqNo)
    else [rows[0]] + Updated(rows[1..], id, sig, seqNo)
  }

  lemma {:induction false} UpdatedOther(rows: seq<Row>, id: string, sig: Sig, seqNo: int)
    requires !HasId(rows, id)
    ensures Updated(rows, id, sig, seqNo) == rows
  {
    if rows != [] {
      assert rows[0].id != id;
      forall i | 0 <= i < |rows[1..]| ensures rows[1..][i].id != id { assert rows[1..][i] == rows[i + 1]; }
      UpdatedOther(rows[1..], id, sig, seqNo);
      assert rows == [rows[0]] + rows[1..];
    }
  }

  /** An update by primary key exchanges one row. */
  lemma {:induction false} UpdatedRow(rows: seq<Row>, r: Row, sig: Sig, seqNo: int)
    requires Keyed(rows) && r in rows
    ensures multiset(Updated(rows, r.id, sig, seqNo)) == multiset(rows) - multiset{r}
      + multiset{r.(sig := sig, seqNo := seqNo)}
  {
    var s := r.(sig := sig, seqNo := seqNo);
    var k :| 0 <= k < |rows| && rows[k] == r;
    assert rows == [rows[0]] + rows[1..];
    if k == 0 {
      OthersLackId(rows);
      UpdatedOther(rows[1..], r.id, sig, seqNo);
      ExchangeFront(r, s, rows[1..]);
    } else {
      assert rows[1..][k - 1] == r;
      UpdatedRow(rows[1..], r, sig, seqNo);
      ExchangeBehind(r, s, rows[0], rows[1..], Updated(rows[1..], r.id, sig, seqNo));
    }
  }

  lemma OthersLackId(rows: seq<Row>)
    requires Keyed(rows) && rows != []
    ensures !HasId(rows[1..], rows[0].id)
  {
  }

  lemma {:induction false} UpdatedKeyed(rows: seq<Row>, id: string, sig: Sig, seqNo: int)
    ensures |Updated(rows, id, sig, seqNo)| == |rows|
    ensures forall i :: 0 <= i < |rows| ==> Updated(rows, id, sig, seqNo)[i].id == rows[i].id
    ensures Keyed(rows) ==> Keyed(Updated(rows, id, sig, seqNo))
  {
    if rows != [] { UpdatedKeyed(rows[1..], id, sig, seqNo); }
  }

  /** One turn of the walk: what is stored and what is still to come. */
  lemma BackfillTurn(rows: seq<Row>, after: seq<Row>, stamped: seq<Row>, batch: seq<Row>, i: nat, r: Row, s: Row)
    requires i < |batch| && r == batch[i]
    requires multiset(rows) == multiset(stamped) + multiset(batch[i..])
    requires multiset(after) == multiset(rows) - multiset{r} + multiset{s}
    ensures multiset(after) == multiset(stamped + [s]) + multiset(batch[i + 1..])
  {
    assert batch[i..] == [r] + batch[i + 1..];
  }

  lemma StampedTurn(batch: seq<Row>, i: nat, heads: map<string, Sig>, slots: map<string, int>, stamped: seq<Row>,
                    s: Row, head: Sig, slot: int)
    requires i < |batch|
    requires Stamped(map[], map[], batch) == stamped + Stamped(heads, slots, batch[i..])
    requires slot == SlotOf(slots, batch[i].tenant) + 1
    requires s == Stamp(batch[i], HeadOf(heads, batch[i].tenant), slot) && head == Next(s)
    ensures Stamped(map[], map[], batch) ==
      stamped + [s] + Stamped(heads[batch[i].tenant := head], slots[batch[i].tenant := slot], batch[i + 1..])
  {
    var rest := Stamped(heads[batch[i].tenant := head], slots[batch[i].tenant := slot], batch[i + 1..]);
    DropFront(batch, i);
    StampedFront(heads, slots, batch[i], batch[i + 1..]);
    Regroup(stamped, [s], rest);
  }

  /** The rows a walk has something to write for. */
  function CountUnstamped(walk: seq<Row>): nat {
    if walk == [] then 0 else CountUnstamped(walk[1..]) + if Unstamped(walk[0]) then 1 else 0
  }

  function Lacking(rows: seq<Row>): set<Row> {
    set r | r in rows && (r.sig == Unsigned || r.seqNo == 0)
  }

  lemma {:induction false} CountLacking(walk: seq<Row>)
    requires Keyed(walk)
    ensures CountUnstamped(walk) == |Lacking(walk)|
  {
    if walk != [] {
      CountLacking(walk[1..]);
      assert walk[0] !in walk[1..];
      assert Lacking(walk) == Lacking(walk[1..]) + if Unstamped(walk[0]) then {walk[0]} else {};
    }
  }

  lemma WalkLacks(rows: seq<Row>)
    requires Keyed(rows)
    ensures CountUnstamped(Walk(rows)) == |Lacking(rows)|
  {
    WalkStrict(rows);
    CountLacking(Walk(rows));
    forall r ensures r in Walk(rows) <==> r in rows {
      assert r in Walk(rows) <==> r in multiset(Walk(rows));
      assert r in rows <==> r in multiset(rows);
    }
    assert Lacking(Walk(rows)) == Lacking(rows);
  }

  lemma CountTurn(walk: seq<Row>, i: nat)
    requires i < |walk|
    ensures CountUnstamped(walk[i..]) == CountUnstamped(walk[i + 1..]) + if Unstamped(walk[i]) then 1 else 0
  {
  }

  class Log {
    var rows: seq<Row>

    constructor ()
      ensures rows == []
    {
      rows := [];
    }

    /** The head a new row chains from and the highest slot in use. */
    method LoadLastState(tenant: string) returns (sig: Sig, seqNo: int)
      ensures sig == LastHead(Chain(rows, tenant))
      ensures Chain(rows, tenant) == [] ==> seqNo == 0
      ensures Chain(rows, tenant) != [] ==> seqNo == Chain(rows, tenant)[|Chain(rows, tenant)| - 1].seqNo
    {
      var chain := Chain(rows, tenant);
      if chain == [] { return Unsigned, 0; }
      var last := chain[|chain| - 1];
      seqNo := last.seqNo;
      if last.action == COMPACTION_ACTION {
        var end := EndSig(last.details);
        if end != Unsigned { return end, seqNo; }
      }
      sig := last.sig;
    }

    /** Signs a row over the tenant's head and inserts it in the next slot. */
    method Append(tenant: string, user: string, action: string, resourceType: string, resourceId: string,
                  details: Details, ip: string, id: string, now: int)
      modifies this
      ensures rows == Appended(old(rows), Draft(tenant, user, action, resourceType, resourceId, details, ip, id, now))
      ensures Appends(old(rows), rows, tenant, user, action, resourceType, resourceId, details, ip, id, now)
    {
      var t := TenantOrDefault(tenant);
      var prev, slot := LoadLastState(t);
      var row := Row(id, t, user, action, resourceType, resourceId, details, ip, now, Unsigned, slot + 1);
      row := row.(sig := Mac(prev, Payload(row)));
      if !HasId(rows, id) {
        rows := rows + [row];
      }
      AppendStores(old(rows), tenant, user, action, resourceType, resourceId, details, ip, id, now);
    }

    /** Walks a tenant's chain and reports the first row that does not check. */
    method Verify(tenant: string) returns (report: Report)
      ensures report == Verdict(Unsigned, Chain(rows, tenant), 0)
    {
      var chain := Chain(rows, tenant);
      var prev, total, verified := Unsigned, 0, 0;
      for i := 0 to |chain|
        invariant total == verified == i
        invariant Verdict(Unsigned, chain, 0) == Verdict(prev, chain[i..], i)
      {
        var r := chain[i];
        total := total + 1;
        assert chain[i..][0] == r && chain[i..][1..] == chain[i + 1..];
        if r.sig == Unsigned { return Report(false, total, verified, r.id, MissingSignature); }
        if r.sig != Mac(prev, Payload(r)) { return Report(false, total, verified, r.id, SignatureMismatch); }
        verified := verified + 1;
        if r.action == COMPACTION_ACTION {
          var end := EndSig(r.details);
          if end == Unsigned { return Report(false, total, verified, r.id, MissingEndSig); }
          prev := end;
        } else {
          prev := r.sig;
        }
      }
      report := Report(true, total, verified, "", None);
    }

    /** Deletes a tenant's rows older than the cutoff one by one and inserts the record
        that bridges them. */
    method Compact(tenant: string, cutoff: int, id: string, now: int) returns (outcome: Outcome)
      requires Keyed(rows)
      modifies this
      ensures (rows, outcome) == CompactedTable(OwnSignature, old(rows), tenant, cutoff, id, now)
      ensures Compacts(old(rows), rows, tenant, cutoff, id, now, outcome)
    {
      CompactStores(rows, tenant, cutoff, id, now);
      if tenant == "" { return TenantRequired; }
      var chain := Chain(rows, tenant);
      var tomb := Selected(chain, cutoff);
      if tomb == [] { return Done(0, ""); }
      if tomb[0].sig == Unsigned || tomb[|tomb| - 1].sig == Unsigned { return UnsignedRange; }
      var record := BuildRecord(Lower(chain, tomb[0].seqNo), tomb, tenant, cutoff, id, now);
      ghost var start := rows;
      DeleteAll(tomb);
      forall k | 0 <= k < |start|
        ensures start[k].id in Ids(tomb) <==> start[k].tenant == tenant && Old(start[k], cutoff)
      {
        SelectedIds(start, tenant, cutoff, k);
      }
      WithoutSelected(start, tenant, cutoff, Ids(tomb));
      if HasId(rows, id) { return InsertFailed; }
      rows := rows + [record];
      outcome := Done(|tomb|, id);
    }

    /** The bridging record: signed over the stored signature of the row below, and
        carrying the stored signature of the last deleted row. */
    static method BuildRecord(below: seq<Row>, tomb: seq<Row>, tenant: string, cutoff: int, id: string, now: int)
      returns (record: Row)
      requires tomb != []
      ensures record == BridgeRow(OwnSignature, below, tomb, |tomb|, tenant, cutoff, id, now)
      ensures record.seqNo == tomb[0].seqNo
      ensures record.details ==
        Compacted(Bridge(tomb[0].id, tomb[|tomb| - 1].id, |tomb|, tomb[|tomb| - 1].sig, cutoff))
    {
      var first, last := tomb[0], tomb[|tomb| - 1];
      var prev := if below == [] then Unsigned else below[|below| - 1].sig;
      var bridge := Bridge(first.id, last.id, |tomb|, last.sig, cutoff);
      record := Row(id, tenant, "system", COMPACTION_ACTION, "audit_log", "", Compacted(bridge), "", now, Unsigned,
        first.seqNo);
      record := record.(sig := Mac(prev, Payload(record)));
    }

    method DeleteAll(tomb: seq<Row>)
      modifies this
      ensures rows == Without(old(rows), Ids(tomb))
    {
      WithoutNone(rows);
      assert Ids(tomb[..0]) == {};
      for k := 0 to |tomb|
        invariant rows == Without(old(rows), Ids(tomb[..k]))
      {
        rows := Without(rows, {tomb[k].id});
        WithoutTwice(old(rows), Ids(tomb[..k]), {tomb[k].id});
        assert tomb[..k + 1] == tomb[..k] + [tomb[k]];
        assert Ids(tomb[..k + 1]) == Ids(tomb[..k]) + {tomb[k].id};
      }
      assert tomb[..|tomb|] == tomb;
    }

    /** Signs and numbers one row if it lacks either, and gives the head after it. */
    method StampRow(r: Row, prev: Sig, slot: int) returns (head: Sig, wrote: bool)
      requires Keyed(rows) && r in rows
      modifies this
      ensures Keyed(rows) && wrote == Unstamped(r) && head == Next(Stamp(r, prev, slot))
      ensures multiset(rows) == multiset(old(rows)) - multiset{r} + multiset{Stamp(r, prev, slot)}
    {
      head := r.sig;
      wrote := r.sig == Unsigned || r.seqNo == 0;
      if wrote {
        if r.sig == Unsigned { head := Mac(prev, Payload(r)); }
        UpdatedRow(rows, r, head, slot);
        UpdatedKeyed(rows, r.id, head, slot);
        rows := Updated(rows, r.id, head, slot);
      }
      if r.action == COMPACTION_ACTION && EndSig(r.details) != Unsigned {
        head := EndSig(r.details);
      }
    }

    /** One turn of the walk. */
    method BackfillRow(batch: seq<Row>, i: nat, heads: map<string, Sig>, slots: map<string, int>,
                       ghost stamped: seq<Row>)
      returns (head: Sig, slot: int, wrote: bool, ghost longer: seq<Row>)
      requires i < |batch| && Keyed(rows) && Walked(batch, i, rows, stamped, heads, slots)
      modifies this
      ensures Keyed(rows) && wrote == Unstamped(batch[i])
      ensures Walked(batch, i + 1, rows, longer, heads[batch[i].tenant := head], slots[batch[i].tenant := slot])
    {
      var r := batch[i];
      var prev := HeadOf(heads, r.tenant);
      slot := SlotOf(slots, r.tenant) + 1;
      ghost var before := rows;
      WalkedHas(batch, i, rows, stamped, heads, slots);
      head, wrote := StampRow(r, prev, slot);
      WalkedTurn(batch, i, before, rows, stamped, heads, slots);
      longer := stamped + [Stamp(r, prev, slot)];
    }

    /** Signs and numbers the rows that are not, in walk order per tenant. */
    method Backfill() returns (updated: nat)
      requires Keyed(rows)
      modifies this
      ensures Keyed(rows) && multiset(rows) == multiset(Stamped(map[], map[], Walk(old(rows))))
      ensures updated == |Lacking(old(rows))|
      ensures |rows| == |old(rows)| && forall r :: r in old(rows) ==> Filled(old(rows), rows, r)
    {
      var batch := Walk(rows);
      var heads: map<string, Sig>, slots: map<string, int> := map[], map[];
      updated := 0;
      ghost var stamped: seq<Row> := [];
      WalkedStart(rows);
      for i := 0 to |batch|
        invariant Keyed(rows) && Walked(batch, i, rows, stamped, heads, slots)
        invariant updated + CountUnstamped(batch[i..]) == CountUnstamped(batch)
      {
        var head, slot, wrote;
        head, slot, wrote, stamped := BackfillRow(batch, i, heads, slots, stamped);
        CountTurn(batch, i);
        if wrote { updated := updated + 1; }
        heads, slots := heads[batch[i].tenant := head], slots[batch[i].tenant := slot];
      }
      WalkedEnd(batch, rows, stamped, heads, slots);
      BackfillStores(old(rows), rows);
      WalkLacks(old(rows));
    }
  }

  lemma WalkedStart(rows: seq<Row>)
    requires Keyed(rows)
    ensures Walked(Walk(rows), 0, rows, [], map[], map[])
  {
    WalkStrict(rows);
    var batch := Walk(rows);
    assert batch[0..] == batch;
    assert [] + Stamped(map[], map[], batch) == Stamped(map[], map[], batch);
  }

  lemma WalkedEnd(batch: seq<Row>, rows: seq<Row>, stamped: seq<Row>, heads: map<string, Sig>, slots: map<string, int>)
    requires Walked(batch, |batch|, rows, stamped, heads, slots)
    ensures multiset(rows) == multiset(Stamped(map[], map[], batch)) && CountUnstamped(batch[|batch|..]) == 0
  {
  }

  /** The walk so far: what is stored is what has been stamped and what is still to come,
      and carrying on from these heads and slots completes the stamping. */
  ghost predicate Walked(batch: seq<Row>, i: nat, rows: seq<Row>, stamped: seq<Row>, heads: map<string, Sig>,
                         slots: map<string, int>)
    requires i <= |batch|
  {
    multiset(rows) == multiset(stamped) + multiset(batch[i..]) &&
      Stamped(map[], map[], batch) == stamped + Stamped(heads, slots, batch[i..])
  }

  lemma WalkedHas(batch: seq<Row>, i: nat, rows: seq<Row>, stamped: seq<Row>, heads: map<string, Sig>,
                  slots: map<string, int>)
    requires i < |batch| && Walked(batch, i, rows, stamped, heads, slots)
    ensures batch[i] in rows
  {
    assert batch[i..][0] == batch[i];
    assert batch[i] in multiset(rows);
  }

  lemma WalkedTurn(batch: seq<Row>, i: nat, rows: seq<Row>, after: seq<Row>, stamped: seq<Row>, heads: map<string,
                   Sig>, slots: map<string, int>)
    requires i < |batch| && Walked(batch, i, rows, stamped, heads, slots)
    requires var r := batch[i];
      multiset(after) == multiset(rows) - multiset{r}
        + multiset{Stamp(r, HeadOf(heads, r.tenant), SlotOf(slots, r.tenant) + 1)}
    ensures var r := batch[i];
      var s := Stamp(r, HeadOf(heads, r.tenant), SlotOf(slots, r.tenant) + 1);
      Walked(batch, i + 1, after, stamped + [s], heads[r.tenant := Next(s)],
        slots[r.tenant := SlotOf(slots, r.tenant) + 1])
  {
    var r := batch[i];
    var slot := SlotOf(slots, r.tenant) + 1;
    var s := Stamp(r, HeadOf(heads, r.tenant), slot);
    BackfillTurn(rows, after, stamped, batch, i, r, s);
    StampedTurn(batch, i, heads, slots, stamped, s, Next(s), slot);
  }
}
