/** Collapsing duplicate device rows when every statement commits on its own. */
module DeviceDedup {
  import opened Options
  import opened Ordering

  datatype Device = Device(tenant: string, host: string, mac: Option<string>, createdAt: int)

  /** The dedup key; a missing hardware address counts as the empty one. */
  datatype Key = Key(tenant: string, host: string, mac: string)

  /** A row of a table with a device_id column. `unique` holds the other columns of a
      unique index over device_id, `None` when no index constrains the row. */
  datatype Child = Child(device: Option<string>, unique: Option<string>)

  type Table = map<int, Child>

  datatype Database = Database(devices: map<string, Device>, tables: map<string, Table>)

  const FK_TABLES: seq<string> := [
    "device_commands", "file_transfers", "alerts", "patches", "compliance_results",
    "device_software", "device_hardware", "device_group_members", "metrics_history",
    "tickets", "agent_tokens", "neighbor_observations", "sunshine_pin_requests"]

  function KeyOf(d: Device): Key {
    Key(d.tenant, d.host, match d.mac case None => "" case Some(m) => m)
  }

  function KeysOf(devices: map<string, Device>): set<Key> {
    set d | d in devices :: KeyOf(devices[d])
  }

  // ---- Winners ----

  /** `ORDER BY created_at DESC, id ASC`. */
  predicate Outranks(devices: map<string, Device>, w: string, d: string)
    requires w in devices && d in devices
  {
    devices[d].createdAt < devices[w].createdAt || (devices[d].createdAt == devices[w].createdAt && TextBefore(w, d))
  }

  predicate Wins(devices: map<string, Device>, k: Key, w: string) {
    && w in devices && KeyOf(devices[w]) == k
    && forall d :: d in devices && d != w && KeyOf(devices[d]) == k ==> Outranks(devices, w, d)
  }

  lemma OutranksTransitive(devices: map<string, Device>, a: string, b: string, c: string)
    requires a in devices && b in devices && c in devices
    requires Outranks(devices, a, b) && Outranks(devices, b, c)
    ensures Outranks(devices, a, c)
  {
    if TextBefore(a, b) && TextBefore(b, c) { TextBeforeTransitive(a, b, c); }
  }

  lemma {:induction false} BestOf(devices: map<string, Device>, ids: set<string>) returns (w: string)
    requires ids != {} && forall d :: d in ids ==> d in devices
    ensures w in ids && forall d :: d in ids && d != w ==> Outranks(devices, w, d)
    decreases ids
  {
    var x :| x in ids;
    if ids == {x} {
      w := x;
    } else {
      var y := BestOf(devices, ids - {x});
      TextBeforeTotal(x, y);
      w := if Outranks(devices, x, y) then x else y;
      forall d | d in ids && d != w ensures Outranks(devices, w, d) {
        if w == x && d != y { OutranksTransitive(devices, x, y, d); }
      }
    }
  }

  lemma WinnerExists(devices: map<string, Device>, k: Key)
    requires k in KeysOf(devices)
    ensures exists w :: Wins(devices, k, w)
  {
    var d :| d in devices && KeyOf(devices[d]) == k;
    var ids := set d | d in devices && KeyOf(devices[d]) == k;
    assert d in ids;
    var w := BestOf(devices, ids);
    assert Wins(devices, k, w);
  }

  lemma WinnerUnique(devices: map<string, Device>, k: Key, v: string, w: string)
    requires Wins(devices, k, v) && Wins(devices, k, w)
    ensures v == w
  {
    if v != w && TextBefore(v, w) && TextBefore(w, v) {
      TextBeforeTransitive(v, w, v);
      TextBeforeIrreflexive(v);
    }
  }

  ghost function Winner(devices: map<string, Device>, k: Key): (w: string)
    requires k in KeysOf(devices)
    ensures Wins(devices, k, w)
  {
    WinnerExists(devices, k);
    var w :| Wins(devices, k, w);
    w
  }

  // ---- The normal form ----

  /** Where a child row ends up: on the winner of its device's key. A row that points
      at no device stays. */
  ghost function Settled(devices: map<string, Device>, c: Child): Child {
    if c.device.Some? && c.device.value in devices
    then c.(device := Some(Winner(devices, KeyOf(devices[c.device.value]))))
    else c
  }

  ghost function SettledTable(devices: map<string, Device>, t: Table): Table {
    map r | r in t :: Settled(devices, t[r])
  }

  /** The database an undisturbed pass aims at: one device per key and every child row
      of a listed table on it. */
  ghost function Canon(s: Database): Database {
    Database(
      map d | d in s.devices && Wins(s.devices, KeyOf(s.devices[d]), d) :: s.devices[d],
      map t | t in s.tables :: if t in FK_TABLES then SettledTable(s.devices, s.tables[t]) else s.tables[t])
  }

  predicate Deduped(devices: map<string, Device>) {
    forall d, e :: d in devices && e in devices && d != e ==> KeyOf(devices[d]) != KeyOf(devices[e])
  }

  /** Without duplicates there is nothing left to do. */
  lemma DedupedIsCanon(s: Database)
    requires Deduped(s.devices)
    ensures Canon(s) == s
  {
    forall d | d in s.devices ensures Wins(s.devices, KeyOf(s.devices[d]), d) {
    }
    assert Canon(s).devices == s.devices;
    forall t | t in s.tables ensures Canon(s).tables[t] == s.tables[t] {
      if t in FK_TABLES {
        forall r | r in s.tables[t] ensures Settled(s.devices, s.tables[t][r]) == s.tables[t][r] {
          var c := s.tables[t][r];
          if c.device.Some? && c.device.value in s.devices {
            WinnerUnique(s.devices, KeyOf(s.devices[c.device.value]), c.device.value,
              Winner(s.devices, KeyOf(s.devices[c.device.value])));
          }
        }
        assert SettledTable(s.devices, s.tables[t]) == s.tables[t];
      }
    }
    assert Canon(s).tables == s.tables;
  }

  lemma CanonDeduped(s: Database)
    ensures Deduped(Canon(s).devices)
    ensures KeysOf(Canon(s).devices) == KeysOf(s.devices)
  {
    var c := Canon(s).devices;
    forall d, e | d in c && e in c && KeyOf(c[d]) == KeyOf(c[e]) ensures d == e {
      WinnerUnique(s.devices, KeyOf(c[d]), d, e);
    }
    forall k | k in KeysOf(s.devices) ensures k in KeysOf(c) {
      var w := Winner(s.devices, k);
      assert w in c;
    }
  }

  /** A second pass changes nothing and has nothing to count. */
  lemma SecondPassIdle(s: Database)
    ensures Canon(Canon(s)) == Canon(s) && CountDuplicates(Canon(s).devices) == 0
  {
    CanonDeduped(s);
    DedupedIsCanon(Canon(s));
    OneDevicePerKey(Canon(s).devices);
  }

  // ---- Statements ----

  function RepointedTable(t: Table, loser: string, winner: string): Table {
    map r | r in t :: if t[r].device == Some(loser) then t[r].(device := Some(winner)) else t[r]
  }

  /** The unique indexes over device_id. */
  predicate UniqueHolds(t: Table) {
    forall r, q :: r in t && q in t && r != q && t[r].unique.Some? && t[r].unique == t[q].unique && t[r].device.Some?
      ==> t[r].device != t[q].device
  }

  datatype Statement = Repoint(table: string, loser: string, winner: string) | Delete(loser: string)

  function Execute(s: Database, st: Statement): Database {
    match st
    case Repoint(t, loser, winner) =>
      if t in s.tables then s.(tables := s.tables[t := RepointedTable(s.tables[t], loser, winner)]) else s
    case Delete(loser) => s.(devices := s.devices - {loser})
  }

  /** No row of a listed table points at the device. */
  predicate Unreferenced(s: Database, id: string) {
    forall t, r :: t in FK_TABLES && t in s.tables && r in s.tables[t] ==> s.tables[t][r].device != Some(id)
  }

  predicate Loses(devices: map<string, Device>, winner: string, loser: string) {
    loser in devices && loser != winner && Wins(devices, KeyOf(devices[loser]), winner)
  }

  /** The statements a pass may have committed in a given state. */
  predicate Permitted(s: Database, st: Statement) {
    match st
    case Repoint(t, loser, winner) =>
      t in FK_TABLES && Loses(s.devices, winner, loser) &&
        (t in s.tables ==> UniqueHolds(RepointedTable(s.tables[t], loser, winner)))
    case Delete(loser) => (exists w :: w in s.devices && Loses(s.devices, w, loser)) && Unreferenced(s, loser)
  }

  lemma RepointKeepsCanon(s: Database, t: string, loser: string, winner: string)
    requires t in FK_TABLES && t in s.tables && Loses(s.devices, winner, loser)
    ensures Canon(Execute(s, Repoint(t, loser, winner))) == Canon(s)
  {
    var after := Execute(s, Repoint(t, loser, winner));
    var before, table := s.tables[t], after.tables[t];
    WinnerUnique(s.devices, KeyOf(s.devices[loser]), winner, Winner(s.devices, KeyOf(s.devices[loser])));
    forall r | r in before ensures Settled(s.devices, table[r]) == Settled(s.devices, before[r]) {
    }
    assert SettledTable(s.devices, table) == SettledTable(s.devices, before);
    assert Canon(after).tables == Canon(s).tables;
  }

  /** Deleting a loser leaves every winner where it is. */
  lemma DeleteKeepsWinners(devices: map<string, Device>, loser: string, winner: string, k: Key)
    requires Loses(devices, winner, loser)
    ensures k in KeysOf(devices) <==> k in KeysOf(devices - {loser})
    ensures k in KeysOf(devices) ==> Winner(devices - {loser}, k) == Winner(devices, k)
    ensures forall d :: Wins(devices - {loser}, k, d) <==> Wins(devices, k, d)
  {
    var rest := devices - {loser};
    assert winner in rest;
    if k in KeysOf(devices) {
      var w := Winner(devices, k);
      if w == loser { WinnerUnique(devices, k, winner, loser); }
      assert Wins(rest, k, w);
      WinnerUnique(rest, k, w, Winner(rest, k));
    }
    forall d | Wins(rest, k, d) ensures Wins(devices, k, d) {
      WinnerUnique(rest, k, d, Winner(rest, k));
    }
    forall d | Wins(devices, k, d) ensures Wins(rest, k, d) {
      WinnerUnique(devices, k, d, Winner(devices, k));
    }
  }

  lemma DeleteKeepsCanonDevices(s: Database, loser: string, winner: string)
    requires Loses(s.devices, winner, loser)
    ensures Canon(Execute(s, Delete(loser))).devices == Canon(s).devices
  {
    var after := Execute(s, Delete(loser));
    forall d | d in s.devices ensures d in Canon(after).devices <==> d in Canon(s).devices {
      DeleteKeepsWinners(s.devices, loser, winner, KeyOf(s.devices[d]));
      if d == loser && Wins(s.devices, KeyOf(s.devices[d]), d) {
        WinnerUnique(s.devices, KeyOf(s.devices[d]), d, winner);
      }
    }
  }

  lemma DeleteKeepsSettled(devices: map<string, Device>, t: Table, loser: string, winner: string)
    requires Loses(devices, winner, loser) && forall r :: r in t ==> t[r].device != Some(loser)
    ensures SettledTable(devices - {loser}, t) == SettledTable(devices, t)
  {
    forall r | r in t ensures Settled(devices - {loser}, t[r]) == Settled(devices, t[r]) {
      var c := t[r];
      if c.device.Some? && c.device.value in devices {
        DeleteKeepsWinners(devices, loser, winner, KeyOf(devices[c.device.value]));
      }
    }
  }

  lemma DeleteKeepsCanon(s: Database, loser: string, winner: string)
    requires Loses(s.devices, winner, loser) && Unreferenced(s, loser)
    ensures Canon(Execute(s, Delete(loser))) == Canon(s)
  {
    DeleteKeepsCanonDevices(s, loser, winner);
    forall t | t in s.tables && t in FK_TABLES
      ensures SettledTable(s.devices - {loser}, s.tables[t]) == SettledTable(s.devices, s.tables[t])
    {
      DeleteKeepsSettled(s.devices, s.tables[t], loser, winner);
    }
    assert Canon(Execute(s, Delete(loser))).tables == Canon(s).tables;
  }

  /** Every statement a pass commits keeps the normal form. */
  lemma StatementKeepsCanon(s: Database, st: Statement)
    requires Permitted(s, st)
    ensures Canon(Execute(s, st)) == Canon(s)
  {
    match st
    case Repoint(t, loser, winner) => if t in s.tables { RepointKeepsCanon(s, t, loser, winner); }
    case Delete(loser) =>
      var w :| w in s.devices && Loses(s.devices, w, loser);
      DeleteKeepsCanon(s, loser, w);
  }

  // ---- Integrity ----

  /** A child row keeps its identity: if it pointed at a device, it still points at one
      with the same key; if not, it is as it was. */
  predicate RowFollows(before: map<string, Device>, c: Child, after: map<string, Device>, d: Child) {
    && c.unique == d.unique
    && (if c.device.Some? && c.device.value in before
        then d.device.Some? && d.device.value in after && KeyOf(after[d.device.value]) == KeyOf(before[c.device.value])
        else d == c)
  }

  /** No child row appears, vanishes, dangles or changes its device key, and devices only
      disappear. */
  predicate Follows(s: Database, u: Database) {
    && s.tables.Keys == u.tables.Keys
    && (forall d :: d in u.devices ==> d in s.devices && u.devices[d] == s.devices[d])
    && (forall t :: t in s.tables && t !in FK_TABLES ==> u.tables[t] == s.tables[t])
    && forall t :: t in s.tables && t in FK_TABLES ==> TableFollows(s.devices, s.tables[t], u.devices, u.tables[t])
  }

  predicate TableFollows(before: map<string, Device>, a: Table, after: map<string, Device>, b: Table) {
    a.Keys == b.Keys && forall r :: r in a ==> RowFollows(before, a[r], after, b[r])
  }

  lemma FollowsTransitive(s: Database, u: Database, v: Database)
    requires Follows(s, u) && Follows(u, v)
    ensures Follows(s, v)
  {
    forall t | t in s.tables && t in FK_TABLES ensures TableFollows(s.devices, s.tables[t], v.devices, v.tables[t]) {
      assert TableFollows(s.devices, s.tables[t], u.devices, u.tables[t]);
      assert TableFollows(u.devices, u.tables[t], v.devices, v.tables[t]);
      forall r | r in s.tables[t] ensures RowFollows(s.devices, s.tables[t][r], v.devices, v.tables[t][r]) {
        assert RowFollows(s.devices, s.tables[t][r], u.devices, u.tables[t][r]);
        assert RowFollows(u.devices, u.tables[t][r], v.devices, v.tables[t][r]);
      }
    }
  }

  lemma StatementFollows(s: Database, st: Statement)
    requires Permitted(s, st)
    ensures Follows(s, Execute(s, st))
  {
    var u := Execute(s, st);
    forall t | t in s.tables && t in FK_TABLES ensures TableFollows(s.devices, s.tables[t], u.devices, u.tables[t]) {
      forall r | r in s.tables[t] ensures RowFollows(s.devices, s.tables[t][r], u.devices, u.tables[t][r]) {
      }
    }
  }

  predicate IndexesHold(s: Database) {
    forall t :: t in s.tables ==> UniqueHolds(s.tables[t])
  }

  // ---- Runs of statements ----

  /** A trace of committed states: consecutive ones are one statement apart. */
  ghost predicate Trace(states: seq<Database>) {
    states != [] && forall i :: 0 < i < |states| ==> Commits(states[i - 1], states[i])
  }

  ghost predicate Commits(s: Database, u: Database) {
    exists st :: Permitted(s, st) && u == Execute(s, st)
  }

  /** At every committed state of a pass, wherever it may stop: the normal form is that
      of the start, no listed child row dangles that did not before, and each stays with
      its device key. */
  lemma {:induction false} EveryStateOfTrace(states: seq<Database>, i: nat)
    requires Trace(states) && i < |states| && IndexesHold(states[0])
    ensures Canon(states[i]) == Canon(states[0]) && Follows(states[0], states[i]) && IndexesHold(states[i])
  {
    if i > 0 {
      EveryStateOfTrace(states, i - 1);
      assert Commits(states[i - 1], states[i]);
      var st :| Permitted(states[i - 1], st) && states[i] == Execute(states[i - 1], st);
      StatementKeepsCanon(states[i - 1], st);
      StatementFollows(states[i - 1], st);
      FollowsTransitive(states[0], states[i - 1], states[i]);
    }
  }

  /** Crash and restart: stop a pass after any statement and run another to completion
      from there. The result is the one an undisturbed pass reaches. */
  lemma CrashRestartConfluent(first: seq<Database>, stop: nat, second: seq<Database>)
    requires Trace(first) && stop < |first| && Trace(second) && second[0] == first[stop]
    requires IndexesHold(first[0]) && Deduped(second[|second| - 1].devices)
    ensures second[|second| - 1] == Canon(first[0])
  {
    EveryStateOfTrace(first, stop);
    EveryStateOfTrace(second, |second| - 1);
    DedupedIsCanon(second[|second| - 1]);
  }

  // ---- Conflicts ----

  /** Merging would put two rows of a unique index on one device. */
  ghost predicate Collides(s: Database) {
    exists t :: t in s.tables && t in FK_TABLES && !UniqueHolds(SettledTable(s.devices, s.tables[t]))
  }

  /** The same in the caller's terms: two rows of one listed table agree on the other
      columns of the index and sit on devices with the same key. */
  predicate Clash(s: Database, t: string, r: int, q: int) {
    && t in FK_TABLES && t in s.tables && r in s.tables[t] && q in s.tables[t] && r != q
    && s.tables[t][r].unique.Some? && s.tables[t][r].unique == s.tables[t][q].unique
    && s.tables[t][r].device.Some? && s.tables[t][q].device.Some?
    && s.tables[t][r].device.value in s.devices && s.tables[t][q].device.value in s.devices
    && KeyOf(s.devices[s.tables[t][r].device.value]) == KeyOf(s.devices[s.tables[t][q].device.value])
  }

  lemma CollidesIffClash(s: Database)
    requires IndexesHold(s)
    ensures Collides(s) <==> exists t, r, q :: Clash(s, t, r, q)
  {
    if Collides(s) {
      var t :| t in s.tables && t in FK_TABLES && !UniqueHolds(SettledTable(s.devices, s.tables[t]));
      var r, q := CollisionClashes(s, t);
      assert Clash(s, t, r, q);
    }
    if t, r, q :| Clash(s, t, r, q) { ClashCollides(s, t, r, q); }
  }

  lemma CollisionClashes(s: Database, t: string) returns (r: int, q: int)
    requires t in s.tables && t in FK_TABLES && UniqueHolds(s.tables[t])
    requires !UniqueHolds(SettledTable(s.devices, s.tables[t]))
    ensures Clash(s, t, r, q)
  {
    var table := s.tables[t];
    var u := SettledTable(s.devices, table);
    r, q :| r in u && q in u && r != q && u[r].unique.Some? && u[r].unique == u[q].unique && u[r].device.Some? &&
      u[r].device == u[q].device;
    SameSettled(s.devices, table[r], table[q]);
  }

  lemma ClashCollides(s: Database, t: string, r: int, q: int)
    requires Clash(s, t, r, q)
    ensures Collides(s)
  {
    var u := SettledTable(s.devices, s.tables[t]);
    assert u[r].device == u[q].device;
    assert !UniqueHolds(u);
  }

  /** Two rows that settle on one device either started on one value or sit on devices
      with the same key. */
  lemma SameSettled(devices: map<string, Device>, c: Child, d: Child)
    requires Settled(devices, c).device == Settled(devices, d).device && c.device.Some? && d.device.Some?
    ensures c.device == d.device
      || (c.device.value in devices && d.device.value in devices &&
        KeyOf(devices[c.device.value]) == KeyOf(devices[d.device.value]))
  {
  }

  /** A repoint that an index refuses proves a collision in the normal form. */
  lemma RefusedRepointCollides(s: Database, t: string, loser: string, winner: string)
    requires t in FK_TABLES && t in s.tables && Loses(s.devices, winner, loser) && UniqueHolds(s.tables[t])
    requires !UniqueHolds(RepointedTable(s.tables[t], loser, winner))
    ensures Collides(s)
  {
  }

  /** When an index is violated: two rows agree on its other columns and on a device. Rows without
      a device never do. */
  lemma IndexBroken(t: Table)
    ensures !UniqueHolds(t) <==>
      exists r, q :: r in t && q in t && r != q && t[r].unique.Some? && t[r].unique == t[q].unique
        && t[r].device == t[q].device && t[r].device.Some?
  {
  }

  /** What refuses a statement: a row of the loser and a row of the winner that agree on the other
      columns of the index. */
  lemma RefusedExactly(t: Table, loser: string, winner: string)
    requires UniqueHolds(t) && loser != winner
    ensures !UniqueHolds(RepointedTable(t, loser, winner)) <==> exists r, q :: InTheWay(t, loser, winner, r, q)
  {
    var after := RepointedTable(t, loser, winner);
    if r, q :| InTheWay(t, loser, winner, r, q) {
      assert after[r].device == after[q].device && r != q;
    } else if !UniqueHolds(after) {
      var r, q :| r in after && q in after && r != q && after[r].unique.Some? && after[r].unique == after[q].unique
        && after[r].device.Some? && after[r].device == after[q].device;
      assert InTheWay(t, loser, winner, r, q) || InTheWay(t, loser, winner, q, r);
    }
  }

  predicate InTheWay(t: Table, loser: string, winner: string, r: int, q: int) {
    && r in t && q in t && t[r].device == Some(loser) && t[q].device == Some(winner)
    && t[r].unique.Some? && t[r].unique == t[q].unique
  }

  lemma CanonCollides(s: Database, u: Database)
    requires Canon(s) == Canon(u)
    ensures Collides(s) <==> Collides(u)
  {
    assert s.tables.Keys == Canon(s).tables.Keys && u.tables.Keys == Canon(u).tables.Keys;
    forall t | t in s.tables && t in FK_TABLES
      ensures SettledTable(s.devices, s.tables[t]) == SettledTable(u.devices, u.tables[t])
    {
      assert Canon(s).tables[t] == Canon(u).tables[t];
    }
  }

  lemma DedupedDoesNotCollide(s: Database)
    requires Deduped(s.devices) && IndexesHold(s)
    ensures !Collides(s)
  {
  }

  /** Removing child rows by hand, as an operator does to resolve a conflict. */
  function WithoutRows(s: Database, rows: set<(string, int)>): Database {
    s.(tables := map t | t in s.tables :: TableWithout(t, s.tables[t], rows))
  }

  function TableWithout(name: string, t: Table, rows: set<(string, int)>): Table {
    map r | r in t && (name, r) !in rows :: t[r]
  }

  lemma SettledWithout(devices: map<string, Device>, name: string, t: Table, rows: set<(string, int)>)
    ensures SettledTable(devices, TableWithout(name, t, rows)) == TableWithout(name, SettledTable(devices, t), rows)
  {
  }

  lemma CanonWithoutRows(s: Database, rows: set<(string, int)>)
    ensures Canon(WithoutRows(s, rows)) == WithoutRows(Canon(s), rows)
  {
    forall t | t in s.tables && t in FK_TABLES
      ensures SettledTable(s.devices, TableWithout(t, s.tables[t], rows)) ==
        TableWithout(t, SettledTable(s.devices, s.tables[t]), rows)
    {
      SettledWithout(s.devices, t, s.tables[t], rows);
    }
    assert Canon(WithoutRows(s, rows)).tables == WithoutRows(Canon(s), rows).tables;
  }

  /** A pass that an index stopped, the rows in its way removed, and a second pass: the
      outcome is the same as removing those rows first and never being stopped. */
  lemma ResolvedRestartConfluent(first: seq<Database>, rows: set<(string, int)>, second: seq<Database>)
    requires Trace(first) && Trace(second) && second[0] == WithoutRows(first[|first| - 1], rows)
    requires IndexesHold(first[0]) && Deduped(second[|second| - 1].devices)
    ensures second[|second| - 1] == Canon(WithoutRows(first[0], rows))
  {
    EveryStateOfTrace(first, |first| - 1);
    var stopped := first[|first| - 1];
    forall t | t in second[0].tables ensures UniqueHolds(second[0].tables[t]) {
      assert UniqueHolds(stopped.tables[t]);
    }
    EveryStateOfTrace(second, |second| - 1);
    DedupedIsCanon(second[|second| - 1]);
    CanonWithoutRows(stopped, rows);
    CanonWithoutRows(first[0], rows);
  }

  // ---- What the normal form keeps ----

  predicate NoAddress(d: Device) {
    d.mac == None || d.mac == Some("")
  }

  /** One machine registered twice: same tenant, same host name, same hardware address or none. */
  predicate OneMachine(a: Device, b: Device) {
    a.tenant == b.tenant && a.host == b.host && (a.mac == b.mac || (NoAddress(a) && NoAddress(b)))
  }

  lemma SameKeyOneMachine(a: Device, b: Device)
    ensures KeyOf(a) == KeyOf(b) <==> OneMachine(a, b)
  {
  }

  /** Bootstrapped after every other registration of its machine, or at the same time as one
      whose id comes later in byte order. */
  predicate Latest(devices: map<string, Device>, d: string)
    requires d in devices
  {
    forall e :: e in devices && e != d && OneMachine(devices[d], devices[e]) ==>
      devices[e].createdAt < devices[d].createdAt
      || (devices[e].createdAt == devices[d].createdAt && TextBefore(d, e))
  }

  /** A device stays, as it is, exactly when it is the latest of its machine. */
  predicate KeepsLatest(before: map<string, Device>, after: map<string, Device>) {
    && (forall d :: d in after ==> d in before && after[d] == before[d])
    && forall d :: d in before ==> (d in after <==> Latest(before, d))
  }

  lemma CanonKeepsLatest(s: Database)
    ensures KeepsLatest(s.devices, Canon(s).devices)
  {
    forall d | d in s.devices ensures d in Canon(s).devices <==> Latest(s.devices, d) {
      forall e | e in s.devices ensures KeyOf(s.devices[d]) == KeyOf(s.devices[e]) <==>
        OneMachine(s.devices[d], s.devices[e])
      {
        SameKeyOneMachine(s.devices[d], s.devices[e]);
      }
    }
  }

  /** Where the row of a listed table goes: from a device to the one that is left of the same
      machine; one that points at no device stays. */
  predicate MovesToLatest(before: map<string, Device>, c: Child, after: map<string, Device>, d: Child) {
    && d.unique == c.unique
    && if c.device.Some? && c.device.value in before then
         d.device.Some? && d.device.value in after && OneMachine(before[c.device.value], after[d.device.value])
       else d == c
  }

  predicate ChildrenMove(s: Database, u: Database) {
    && u.tables.Keys == s.tables.Keys
    && forall t :: t in s.tables ==>
         && u.tables[t].Keys == s.tables[t].Keys
         && forall r :: r in s.tables[t] ==>
              if t in FK_TABLES then MovesToLatest(s.devices, s.tables[t][r], u.devices, u.tables[t][r])
              else u.tables[t][r] == s.tables[t][r]
  }

  lemma CanonChildrenMove(s: Database)
    ensures ChildrenMove(s, Canon(s))
  {
    forall t, r | t in s.tables && t in FK_TABLES && r in s.tables[t]
      ensures MovesToLatest(s.devices, s.tables[t][r], Canon(s).devices, Canon(s).tables[t][r])
    {
      var c := s.tables[t][r];
      if c.device.Some? && c.device.value in s.devices {
        SameKeyOneMachine(s.devices[c.device.value], s.devices[Winner(s.devices, KeyOf(s.devices[c.device.value]))]);
      }
    }
  }

  // ---- Counting ----

  /** Rows beyond one per key. */
  function CountDuplicates(devices: map<string, Device>): int {
    |devices| - |KeysOf(devices)|
  }

  lemma {:induction false} OneDevicePerKey(devices: map<string, Device>)
    requires Deduped(devices)
    ensures |devices| == |KeysOf(devices)|
    decreases |devices|
  {
    if devices == map[] {
      assert KeysOf(devices) == {};
    } else {
      var d :| d in devices;
      var rest := devices - {d};
      assert |rest| == |devices| - 1;
      OneDevicePerKey(rest);
      assert KeyOf(devices[d]) !in KeysOf(rest);
      forall k | k in KeysOf(devices) ensures k in KeysOf(rest) + {KeyOf(devices[d])} {
        var e :| e in devices && KeyOf(devices[e]) == k;
        if e != d { assert e in rest; }
      }
      assert KeysOf(devices) == KeysOf(rest) + {KeyOf(devices[d])};
    }
  }

  /** The normal form drops exactly the duplicates. */
  lemma CanonCount(s: Database)
    ensures |s.devices| - |Canon(s).devices| == CountDuplicates(s.devices)
  {
    CanonDeduped(s);
    OneDevicePerKey(Canon(s).devices);
  }
}
