/** The dedup pass itself, over a connection on which every statement commits alone. */
module DedupPass {
  import opened Options
  import opened DeviceDedup

  datatype Reply = Committed | MissingTable | Refused

  predicate HasDuplicate(devices: map<string, Device>, k: Key) {
    exists d, e :: d in devices && e in devices && d != e && KeyOf(devices[d]) == k && KeyOf(devices[e]) == k
  }

  /** No row of these tables points at the device. */
  predicate Cleared(tables: map<string, Table>, names: seq<string>, id: string) {
    forall t :: t in names && t in tables ==> NoRowOf(tables[t], id)
  }

  lemma ClearedNext(before: map<string, Table>, tables: map<string, Table>, names: seq<string>, i: nat, loser: string,
                    winner: string)
    requires i < |names| && loser != winner && Cleared(before, names[..i], loser)
    requires tables == if names[i] in before then before[names[i] := RepointedTable(before[names[i]], loser, winner)]
      else before
    ensures Cleared(tables, names[..i + 1], loser)
  {
  }

  predicate NoRowOf(t: Table, id: string) {
    forall r :: r in t ==> t[r].device != Some(id)
  }

  /** The keys are exactly those with more than one device. */
  predicate AreDuplicates(devices: map<string, Device>, keys: set<Key>) {
    && (forall k :: k in keys ==> HasDuplicate(devices, k))
    && forall d :: d in devices && HasDuplicate(devices, KeyOf(devices[d])) ==> KeyOf(devices[d]) in keys
  }

  lemma DuplicatesFound(devices: map<string, Device>, keys: set<Key>)
    requires keys == set k | k in KeysOf(devices) && HasDuplicate(devices, k)
    ensures AreDuplicates(devices, keys)
  {
  }

  lemma NoDuplicates(devices: map<string, Device>)
    requires AreDuplicates(devices, {})
    ensures Deduped(devices)
  {
  }

  /** Only devices with this key have gone. */
  predicate OnlyMerged(before: map<string, Device>, after: map<string, Device>, k: Key) {
    && (forall d :: d in after ==> d in before && after[d] == before[d])
    && forall d :: d in before && KeyOf(before[d]) != k ==> d in after
  }

  /** The devices with this key are the winner and the losers not yet merged. */
  ghost predicate Left(devices: map<string, Device>, k: Key, winner: string, losers: set<string>) {
    Wins(devices, k, winner) && forall d :: d in losers <==> d in devices && KeyOf(devices[d]) == k && d != winner
  }

  lemma LoserGone(before: map<string, Device>, now: map<string, Device>, k: Key, winner: string, losers: set<string>,
                  loser: string)
    requires OnlyMerged(before, now, k) && Left(now, k, winner, losers) && loser in losers
    ensures OnlyMerged(before, now - {loser}, k) && Left(now - {loser}, k, winner, losers - {loser})
    ensures |now - {loser}| == |now| - 1
  {
  }

  lemma WinnerAlone(devices: map<string, Device>, k: Key, winner: string)
    requires Left(devices, k, winner, {})
    ensures !HasDuplicate(devices, k)
  {
  }

  lemma OneSetMerged(before: map<string, Device>, after: map<string, Device>, k: Key, keys: set<Key>)
    requires AreDuplicates(before, keys) && !HasDuplicate(after, k)
    requires OnlyMerged(before, after, k)
    ensures AreDuplicates(after, keys - {k})
  {
    forall j | j in keys - {k} ensures HasDuplicate(after, j) {
      assert HasDuplicate(before, j);
      var d, e :| d in before && e in before && d != e && KeyOf(before[d]) == j && KeyOf(before[e]) == j;
      assert d in after && e in after;
    }
    forall d | d in after && HasDuplicate(after, KeyOf(after[d])) ensures KeyOf(after[d]) in keys - {k} {
      assert HasDuplicate(before, KeyOf(after[d]));
    }
  }

  class Connection {
    var devices: map<string, Device>
    var tables: map<string, Table>
    /** Whether the unique index on the dedup key exists. */
    var indexed: bool
    /** Every state committed since the pass began, oldest first. */
    ghost var journal: seq<Database>

    function State(): Database
      reads this
    {
      Database(devices, tables)
    }

    ghost predicate Valid()
      reads this
    {
      Trace(journal) && IndexesHold(journal[0]) && journal[|journal| - 1] == State()
    }

    lemma JournalGrows(st: Statement, before: Database)
      requires Valid() && State() == before && Permitted(before, st)
      ensures Trace(journal + [Execute(before, st)])
    {
    }

    /** What is known of every state the journal reaches. */
    lemma Reached()
      requires Valid()
      ensures Canon(State()) == Canon(journal[0]) && Follows(journal[0], State()) && IndexesHold(State())
      ensures Collides(State()) <==> Collides(journal[0])
    {
      EveryStateOfTrace(journal, |journal| - 1);
      CanonCollides(State(), journal[0]);
    }

    /** `UPDATE t SET device_id = winner WHERE device_id = loser`. */
    method Repoint(t: string, loser: string, winner: string) returns (reply: Reply)
      requires Valid() && t in FK_TABLES && Loses(devices, winner, loser)
      modifies `tables, `journal
      ensures Valid() && old(journal) <= journal
      ensures reply == MissingTable <==> t !in old(tables)
      ensures reply == Refused <==> t in old(tables) && !UniqueHolds(RepointedTable(old(tables)[t], loser, winner))
      ensures State() == if reply == Committed then Execute(old(State()), Statement.Repoint(t, loser, winner))
        else old(State())
      ensures reply == Refused ==> Collides(journal[0])
    {
      if t !in tables { return MissingTable; }
      Reached();
      var after := RepointedTable(tables[t], loser, winner);
      if !UniqueHolds(after) {
        RefusedRepointCollides(State(), t, loser, winner);
        return Refused;
      }
      JournalGrows(Statement.Repoint(t, loser, winner), State());
      tables := tables[t := after];
      journal := journal + [State()];
      reply := Committed;
    }

    /** `DELETE FROM devices WHERE id = loser`. */
    method Delete(loser: string, ghost winner: string)
      requires Valid() && Loses(devices, winner, loser) && Unreferenced(State(), loser)
      modifies `devices, `journal
      ensures Valid() && old(journal) <= journal
      ensures State() == Execute(old(State()), Statement.Delete(loser))
    {
      JournalGrows(Statement.Delete(loser), State());
      devices := devices - {loser};
      journal := journal + [State()];
    }

    /** Moves every child row of one loser onto the winner. A missing table is skipped;
        a refused statement abandons the pass. */
    method MoveChildren(loser: string, winner: string) returns (ok: bool)
      requires Valid() && Loses(devices, winner, loser)
      modifies `tables, `journal
      ensures Valid() && old(journal) <= journal
      ensures ok ==> Unreferenced(State(), loser)
      ensures !ok ==> Collides(journal[0])
    {
      for i := 0 to |FK_TABLES|
        invariant Valid() && old(journal) <= journal
        invariant Cleared(tables, FK_TABLES[..i], loser)
      {
        ghost var before := tables;
        var reply := Repoint(FK_TABLES[i], loser, winner);
        if reply == Refused { return false; }
        ClearedNext(before, tables, FK_TABLES, i, loser, winner);
      }
      ok := true;
      assert FK_TABLES[..|FK_TABLES|] == FK_TABLES;
    }

    /** Moves one loser's children and deletes it. */
    method MergeLoser(loser: string, winner: string) returns (ok: bool)
      requires Valid() && Loses(devices, winner, loser)
      modifies `devices, `tables, `journal
      ensures Valid() && old(journal) <= journal
      ensures devices == if ok then old(devices) - {loser} else old(devices)
      ensures !ok ==> Collides(journal[0])
    {
      ok := MoveChildren(loser, winner);
      if ok { Delete(loser, winner); }
    }

    /** Merges one set of duplicates into its winner. */
    method MergeKey(k: Key) returns (merged: nat, ok: bool)
      requires Valid() && HasDuplicate(devices, k)
      modifies `devices, `tables, `journal
      ensures Valid() && old(journal) <= journal
      ensures merged == |old(devices)| - |devices|
      ensures OnlyMerged(old(devices), devices, k)
      ensures ok ==> !HasDuplicate(devices, k)
      ensures !ok ==> Collides(journal[0])
    {
      merged := 0;
      assert k in KeysOf(devices);
      WinnerExists(devices, k);
      var winner :| winner in devices && Wins(devices, k, winner);
      var losers := set d | d in devices && KeyOf(devices[d]) == k && d != winner;
      while losers != {}
        invariant Valid() && old(journal) <= journal
        invariant merged == |old(devices)| - |devices|
        invariant OnlyMerged(old(devices), devices, k) && Left(devices, k, winner, losers)
        decreases losers
      {
        var loser :| loser in losers;
        LoserGone(old(devices), devices, k, winner, losers, loser);
        ok := MergeLoser(loser, winner);
        if !ok { return; }
        losers := losers - {loser};
        merged := merged + 1;
      }
      ok := true;
      WinnerAlone(devices, k, winner);
    }

    /** Every set of duplicates in turn. */
    method MergeAll() returns (merged: nat, ok: bool)
      requires Valid()
      modifies `devices, `tables, `journal
      ensures Valid() && old(journal) <= journal
      ensures merged == |old(devices)| - |devices|
      ensures ok ==> Deduped(devices)
      ensures !ok ==> Collides(journal[0])
    {
      var dups := set k | k in KeysOf(devices) && HasDuplicate(devices, k);
      DuplicatesFound(devices, dups);
      merged := 0;
      while dups != {}
        invariant Valid() && old(journal) <= journal
        invariant merged == |old(devices)| - |devices|
        invariant AreDuplicates(devices, dups)
        decreases dups
      {
        var k :| k in dups;
        ghost var before := devices;
        var n: nat;
        n, ok := MergeKey(k);
        merged := merged + n;
        if !ok { return; }
        OneSetMerged(before, devices, k, dups);
        dups := dups - {k};
      }
      ok := true;
      NoDuplicates(devices);
    }

    /** `CREATE UNIQUE INDEX IF NOT EXISTS`, which duplicates would refuse. */
    method CreateIndex() returns (ok: bool)
      modifies `indexed
      ensures ok == Deduped(devices) && indexed == (old(indexed) || ok)
    {
      ok := Deduped(devices);
      indexed := indexed || ok;
    }

    /** The whole pass: it succeeds exactly when merging violates no unique index, and
        then leaves the normal form, having removed exactly the duplicates; stopped or
        not, every state it committed is in the journal. */
    method Deduplicate() returns (merged: nat, ok: bool)
      requires IndexesHold(State())
      modifies this
      ensures Valid() && journal[0] == old(State())
      ensures merged == |old(devices)| - |devices|
      ensures ok <==> !Collides(old(State()))
      ensures ok ==> State() == Canon(old(State())) && Deduped(devices) && merged == CountDuplicates(old(devices))
      ensures ok ==> KeepsLatest(old(devices), devices) && ChildrenMove(old(State()), State())
      ensures indexed == (old(indexed) || ok)
    {
      journal := [State()];
      merged, ok := MergeAll();
      Reached();
      if !ok { return; }
      DedupedDoesNotCollide(State());
      DedupedIsCanon(State());
      CanonCount(journal[0]);
      CanonKeepsLatest(journal[0]);
      CanonChildrenMove(journal[0]);
      ok := CreateIndex();
    }
  }
}
