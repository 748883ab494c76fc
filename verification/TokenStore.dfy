/** The server's token cache and tables, updated in place. */
module TokenStore {
  import opened Options
  import opened AgentTokens

  function MarkBypass(devices: Devices, id: string): Devices
    requires id in devices
  {
    devices[id := devices[id].(bypassUsed := true)]
  }

  lemma {:induction false} NewestExists(t: Table, hashes: set<Hash>) returns (pick: Hash)
    requires hashes != {} && forall g :: g in hashes ==> g in t
    ensures NewestOf(t, hashes, pick)
    decreases hashes
  {
    var g :| g in hashes;
    pick := g;
    if hashes != {g} {
      var rest := NewestExists(t, hashes - {g});
      pick := if t[g].createdAt < t[rest].createdAt then rest else g;
    }
  }

  datatype Reply = TooShort | LimitReached | Conflict | Refreshed(id: string) | Registered(id: string)

  predicate Succeeds(reply: Reply) {
    reply.Refreshed? || reply.Registered?
  }

  function TenantDevices(devices: Devices, tenant: string): set<string> {
    set d | d in devices && devices[d].tenant == tenant
  }

  function Matching(devices: Devices, tenant: string, host: string, mac: string): set<string> {
    set d | d in devices && devices[d].tenant == tenant && devices[d].host == host && devices[d].mac == mac
  }

  /** What a registration request brings, and its tenant's device cap, 0 for none. */
  datatype Request = Request(tenant: string, host: string, mac: string, token: Hash, newId: string, maxDevices: nat,
                             now: int)

  /** The device is the one the request is about. */
  predicate IsFor(d: Device, r: Request) {
    d.tenant == r.tenant && d.host == r.host && d.mac == r.mac
  }

  /** The tenant has as many devices as it may have. */
  predicate AtCap(devices: Devices, r: Request) {
    0 < r.maxDevices <= |TenantDevices(devices, r.tenant)|
  }

  /** Seen again; the latch may have been spent. */
  predicate SeenAgain(before: Device, after: Device, now: int) {
    && after == before.(lastSeen := Some(now), bypassUsed := after.bypassUsed)
    && (before.bypassUsed ==> after.bypassUsed)
  }

  /** The devices after the section under the lock. */
  predicate Settles(before: Devices, after: Devices, r: Request, reply: Reply) {
    match reply
    case Conflict => after == before && exists d :: d in before && IsFor(before[d], r)
    case Refreshed(id) =>
      id in before && IsFor(before[id], r) && id in after && SeenAgain(before[id], after[id], r.now)
      && after == before[id := after[id]]
    case Registered(id) =>
      && id == r.newId && id !in before && (forall d :: d in before ==> !IsFor(before[d], r))
      && after == before[id := Device(r.tenant, r.host, r.mac, Some(r.now), false)]
    case _ => false
  }

  /** The devices after a whole request: the cap is checked first, whether the device is known or
      not. */
  predicate Enrolls(before: Devices, after: Devices, r: Request, reply: Reply) {
    if |r.token| < 32 then reply == TooShort && after == before
    else if AtCap(before, r) then reply == LimitReached && after == before
    else Settles(before, after, r, reply)
  }

  lemma MatchingAreFor(devices: Devices, r: Request)
    ensures forall d :: d in Matching(devices, r.tenant, r.host, r.mac) <==> d in devices && IsFor(devices[d], r)
  {
  }

  class Store {
    const dialect: Dialect
    var cache: Cache
    var table: Table
    var devices: Devices

    constructor (dialect: Dialect, table: Table, devices: Devices)
      ensures this.dialect == dialect && this.table == table && this.devices == devices && cache == map[]
    {
      this.dialect, this.table, this.devices, cache := dialect, table, devices, map[];
    }

    /** The newest of some rows, as one query answers it. */
    method Newest(hashes: set<Hash>) returns (row: Option<Hash>)
      requires forall g :: g in hashes ==> g in table
      ensures match row case None => hashes == {} case Some(c) => NewestOf(table, hashes, c)
    {
      if hashes == {} { return None; }
      ghost var some := NewestExists(table, hashes);
      var pick :| pick in hashes && NewestOf(table, hashes, pick);
      row := Some(pick);
    }

    /** Rotation: the cache always moves; the table moves with it unless the transaction
        rolls back. */
    method RegisterAgentToken(token: Hash, device: string, host: string, tenant: string, now: int, saves: bool)
      modifies `cache, `table
      ensures cache == RotatedCache(old(cache), token, OwnerOf(tenant, device, host), now)
      ensures saves ==> Rotates(old(table), table, token, OwnerOf(tenant, device, host), now, dialect)
      ensures !saves ==> table == old(table)
    {
      var o := OwnerOf(tenant, device, host);
      var todo := cache.Keys;
      while todo != {}
        invariant todo <= cache.Keys == old(cache).Keys && table == old(table)
        invariant forall g ::
          g in cache ==> cache[g] == if g in todo || g == token then old(cache)[g]
            else RotatedEntry(old(cache)[g], o, now)
        decreases todo
      {
        var h :| h in todo;
        todo := todo - {h};
        if h != token && Active(cache[h], o) {
          cache := cache[h := cache[h].(supersededAt := now + SUPERSEDE_WINDOW)];
        }
      }
      cache := cache[token := Entry(o, now + LIFETIME, 0)];
      if !saves { return; }
      var prior := Newest(Actives(table, o) - {token});
      assert PriorOf(table, token, o, prior);
      table := RotatedTable(table, token, o, now, prior, dialect);
    }

    method VerifyAgentPoP(tenant: string, device: string, host: string, presented: Hash, now: int) returns (v: Verdict)
      ensures JudgedAs(table, OwnerOf(tenant, device, host), Lookup(devices, device), presented, now, v)
    {
      var row := Newest(Actives(table, OwnerOf(tenant, device, host)));
      assert ActiveRow(table, OwnerOf(tenant, device, host), row);
      if row.None? { return NoPriorToken; }
      var previous := table[row.value].previous;
      if presented == "" { return Reject; }
      if presented == row.value { return AcceptCurrent; }
      if previous.None? || presented != previous.value.hash { return Reject; }
      if now - previous.value.rotatedAt >= POP_WINDOW { return Reject; }
      if device !in devices { return GraceRotationAck; }
      if devices[device].lastSeen.Some? &&
        devices[device].lastSeen.value > previous.value.rotatedAt { return GraceRotationAck; }
      v := GraceCrashRecovery;
    }

    method ActiveTokenIsLegacy(tenant: string, device: string, host: string) returns (legacy: bool)
      ensures LegacyIs(table, OwnerOf(tenant, device, host), legacy)
    {
      var row := Newest(Actives(table, OwnerOf(tenant, device, host)));
      assert ActiveRow(table, OwnerOf(tenant, device, host), row);
      legacy := row.Some? && table[row.value].legacy;
    }

    /** The one atomic statement of the bypass. */
    method AcquireLegacyBypass(device: string) returns (won: bool)
      modifies `devices
      ensures won <==> device in old(devices) && !old(devices)[device].bypassUsed
      ensures devices == if won then MarkBypass(old(devices), device) else old(devices)
      ensures device in devices ==> devices[device].bypassUsed
    {
      won := device in devices && !devices[device].bypassUsed;
      if won { devices := MarkBypass(devices, device); }
    }

    /** The verdict and, where it does not suffice, the latch. */
    method Admit(tenant: string, host: string, id: string, presented: Hash, cutoff: Cutoff, now: int)
      returns (admitted: bool)
      requires tenant != "" && id in devices
      modifies `devices
      ensures AdmissionOf(old(devices), table, tenant, host, id, presented, cutoff, now, admitted, devices)
    {
      var verdict := VerifyAgentPoP(tenant, id, host, presented, now);
      var legacy := ActiveTokenIsLegacy(tenant, id, host);
      var bypass := false;
      if BypassOpen(Lookup(devices, id), cutoff, now) && Eligible(verdict, legacy) {
        bypass := AcquireLegacyBypass(id);
      }
      admitted := Accepted(verdict) || bypass;
      assert admitted == Admits(old(devices)[id], verdict, legacy, cutoff, now);
    }

    /** The section under the dedup lock: which device the request is for. */
    method Recognise(tenant: string, host: string, mac: string, presented: Hash, newId: string, cutoff: Cutoff,
                     now: int, ghost r: Request) returns (reply: Reply)
      requires newId !in devices && tenant != ""
      requires r.tenant == tenant && r.host == host && r.mac == mac && r.newId == newId && r.now == now
      modifies `devices
      ensures reply.Registered? || reply.Refreshed? || reply.Conflict?
      ensures reply.Registered? <==> Matching(old(devices), tenant, host, mac) == {}
      ensures reply.Registered? ==>
        reply.id == newId && devices == old(devices)[newId := Device(tenant, host, mac, Some(now), false)]
      ensures reply.Refreshed? ==> reply.id in Matching(old(devices), tenant, host, mac)
      ensures reply.Refreshed? ==>
        Refreshes(old(devices), table, tenant, host, reply.id, presented, cutoff, now, devices)
      ensures reply.Conflict? ==>
        devices == old(devices) && Refuses(old(devices), table, tenant, host, mac, presented, cutoff, now)
      ensures Settles(old(devices), devices, r, reply)
    {
      MatchingAreFor(devices, r);
      var found := Matching(devices, tenant, host, mac);
      if found == {} {
        devices := devices[newId := Device(tenant, host, mac, Some(now), false)];
        return Registered(newId);
      }
      var id :| id in found;
      var admitted := Admit(tenant, host, id, presented, cutoff, now);
      if !admitted { return Conflict; }
      assert id in devices;
      devices := Touch(devices, id, now);
      reply := Refreshed(id);
      RefreshSettles(old(devices), table, devices, id, presented, cutoff, r);
    }

    /** The register handler, run without interference. A refusal changes nothing. An
        existing device is rebound only against possession of its token or by spending its
        latch; otherwise the key was unknown and the device is new. */
    method Register(tenant: string, host: string, mac: string, token: Hash, presented: Hash, newId: string,
                    maxDevices: nat, cutoff: Cutoff, now: int, saves: bool) returns (reply: Reply)
      requires newId !in devices && tenant != ""
      modifies `cache, `table, `devices
      ensures reply.TooShort? <==> |token| < 32
      ensures reply.LimitReached? <==> |token| >= 32 && 0 < maxDevices <= |TenantDevices(old(devices), tenant)|
      ensures !Succeeds(reply) ==> cache == old(cache) && table == old(table) && devices == old(devices)
      ensures reply.Registered? ==> Matching(old(devices), tenant, host, mac) == {}
      ensures reply.Registered? ==>
        reply.id == newId && devices == old(devices)[newId := Device(tenant, host, mac, Some(now), false)]
      ensures reply.Refreshed? ==> reply.id in Matching(old(devices), tenant, host, mac)
      ensures reply.Refreshed? ==>
        Refreshes(old(devices), old(table), tenant, host, reply.id, presented, cutoff, now, devices)
      ensures reply.Conflict? ==> Refuses(old(devices), old(table), tenant, host, mac, presented, cutoff, now)
      ensures Succeeds(reply) ==> cache == RotatedCache(old(cache), token, Owner(tenant, reply.id, host), now)
      ensures Succeeds(reply) ==>
        if saves then Rotates(old(table), table, token, Owner(tenant, reply.id, host), now, dialect)
          else table == old(table)
      ensures Enrolls(old(devices), devices, Request(tenant, host, mac, token, newId, maxDevices, now), reply)
    {
      if |token| < 32 { return TooShort; }
      if 0 < maxDevices <= |TenantDevices(devices, tenant)| { return LimitReached; }
      ghost var r := Request(tenant, host, mac, token, newId, maxDevices, now);
      reply := Recognise(tenant, host, mac, presented, newId, cutoff, now, r);
      if Succeeds(reply) { RegisterAgentToken(token, reply.id, host, tenant, now, saves); }
    }

    /** The first half of a prune: the cache loses its dead tokens. */
    method PruneCache(now: int) returns (gone: set<Hash>)
      modifies `cache
      ensures cache == map g | g in old(cache) && Live(old(cache)[g], now) :: old(cache)[g]
      ensures gone == set g | g in old(cache) && !Live(old(cache)[g], now)
    {
      var todo := cache.Keys;
      gone := {};
      while todo != {}
        invariant todo <= old(cache).Keys
        invariant gone == set g | g in old(cache) && g !in todo && !Live(old(cache)[g], now)
        invariant cache == old(cache) - gone
        decreases todo
      {
        var h :| h in todo;
        todo := todo - {h};
        if !Live(cache[h], now) {
          cache := cache - {h};
          gone := gone + {h};
        }
      }
    }

    /** The second half, without the lock: one delete per hash. */
    method PruneRows(gone: set<Hash>)
      modifies `table
      ensures table == old(table) - gone
    {
      var todo := gone;
      while todo != {}
        invariant todo <= gone && table == old(table) - (gone - todo)
        decreases todo
      {
        var h :| h in todo;
        table := table - {h};
        todo := todo - {h};
      }
    }

    /** Start-up: every stored row enters the cache. */
    method LoadAgentTokens()
      modifies `cache
      ensures cache == old(cache) + Projection(table)
    {
      var todo := table.Keys;
      while todo != {}
        invariant todo <= table.Keys
        invariant cache.Keys == old(cache).Keys + (table.Keys - todo)
        invariant forall g ::
          g in cache ==> cache[g] == if g in table && g !in todo then table[g].entry else old(cache)[g]
        decreases todo
      {
        var h :| h in todo;
        cache := cache[h := table[h].entry];
        todo := todo - {h};
      }
    }
  }

  /** Possession, or an open latch and a reason to use it. */
  predicate Admits(device: Device, v: Verdict, legacy: bool, cutoff: Cutoff, now: int) {
    Accepted(v) || (Eligible(v, legacy) && BypassOpen(Some(device), cutoff, now))
  }

  lemma RefreshSettles(devices: Devices, t: Table, after: Devices, id: string, presented: Hash, cutoff: Cutoff,
                       r: Request)
    requires id in devices && IsFor(devices[id], r)
    requires Refreshes(devices, t, r.tenant, r.host, id, presented, cutoff, r.now, after)
    ensures Settles(devices, after, r, Refreshed(id))
  {
  }

  /** One rotation of the table, whichever newest row the query picked. */
  ghost predicate Rotates(t: Table, after: Table, h: Hash, o: Owner, now: int, dialect: Dialect) {
    exists prior :: PriorOf(t, h, o, prior) && after == RotatedTable(t, h, o, now, prior, dialect)
  }

  ghost predicate JudgedAs(t: Table, o: Owner, device: Option<Device>, presented: Hash, now: int, v: Verdict) {
    exists row :: ActiveRow(t, o, row) && v == Verify(t, row, device, presented, now)
  }

  ghost predicate LegacyIs(t: Table, o: Owner, legacy: bool) {
    exists row :: ActiveRow(t, o, row) && legacy == IsLegacy(t, row)
  }

  /** The row is active for the owner, and no active one is newer. */
  predicate NewestActive(t: Table, o: Owner, c: Hash) {
    && c in t && t[c].entry.owner == o && t[c].entry.supersededAt == 0
    && forall g :: g in t && t[g].entry.owner == o && t[g].entry.supersededAt == 0 ==> t[g].createdAt <= t[c].createdAt
  }

  lemma ActiveRowIs(t: Table, o: Owner, row: Option<Hash>)
    requires ActiveRow(t, o, row)
    ensures row.Some? ==> NewestActive(t, o, row.value)
    ensures row.None? <==> forall g :: g in t && t[g].entry.owner == o ==> t[g].entry.supersededAt != 0
  {
    forall g ensures g in Actives(t, o) <==> g in t && t[g].entry.owner == o && t[g].entry.supersededAt == 0 {
    }
  }

  /** Every verdict in terms of the table and the device: without an active row there is no
      prior token; otherwise the newest active row decides, and an accepted previous token is a
      late acknowledgement exactly when the device has been seen since the rotation. */
  lemma VerdictExactly(t: Table, o: Owner, device: Option<Device>, presented: Hash, now: int, v: Verdict)
    requires JudgedAs(t, o, device, presented, now, v)
    ensures v.NoPriorToken? <==> forall g :: g in t && t[g].entry.owner == o ==> t[g].entry.supersededAt != 0
    ensures !v.NoPriorToken? ==>
      exists c :: NewestActive(t, o, c) && Tells(v, c, t[c].previous, device, presented, now)
  {
    var row :| ActiveRow(t, o, row) && v == Verify(t, row, device, presented, now);
    ActiveRowIs(t, o, row);
    if row.Some? { JudgeTells(Bound(row.value, t[row.value].previous), device, presented, now); }
  }

  /** The row is a legacy one when the newest active row is. */
  lemma LegacyExactly(t: Table, o: Owner, legacy: bool)
    requires LegacyIs(t, o, legacy)
    ensures legacy ==> exists c :: NewestActive(t, o, c) && t[c].legacy
    ensures !legacy ==> (forall g :: !NewestActive(t, o, g)) || exists c :: NewestActive(t, o, c) && !t[c].legacy
  {
    var row :| ActiveRow(t, o, row) && legacy == IsLegacy(t, row);
    ActiveRowIs(t, o, row);
  }

  /** Admission of a known device, and the latch after it. */
  ghost predicate AdmissionOf(devices: Devices, t: Table, tenant: string, host: string, id: string, presented: Hash,
                              cutoff: Cutoff, now: int, admitted: bool, after: Devices)
    requires id in devices
  {
    exists v, legacy ::
      && JudgedAs(t, Owner(tenant, id, host), Some(devices[id]), presented, now, v)
      && LegacyIs(t, Owner(tenant, id, host), legacy)
      && admitted == Admits(devices[id], v, legacy, cutoff, now)
      && after == if admitted && !Accepted(v) then MarkBypass(devices, id) else devices
  }

  ghost predicate Refuses(devices: Devices, t: Table, tenant: string, host: string, mac: string, presented: Hash,
                          cutoff: Cutoff, now: int) {
    exists id :: id in Matching(devices, tenant, host, mac) &&
      AdmissionOf(devices, t, tenant, host, id, presented, cutoff, now, false, devices)
  }

  /** A device with one active token that is no legacy row: possession is the only way in,
      and the latch stays as it was. */
  lemma OnlyPossessionAdmits(devices: Devices, t: Table, tenant: string, host: string, id: string, b: Bound,
                             presented: Hash,
                             cutoff: Cutoff, now: int, admitted: bool, after: Devices)
    requires id in devices && Remembers(t, Owner(tenant, id, host), b) && !t[b.current].legacy
    requires AdmissionOf(devices, t, tenant, host, id, presented, cutoff, now, admitted, after)
    ensures admitted <==> presented != "" && Possesses(b, presented, now)
    ensures after == devices
  {
  }

  /** A device with one active token, legacy or not: possession is a way in that leaves the
      latch, and a legacy row opens one more that spends it. */
  lemma AdmissionExact(devices: Devices, t: Table, tenant: string, host: string, id: string, b: Bound, presented: Hash,
                       cutoff: Cutoff, now: int, admitted: bool, after: Devices)
    requires id in devices && Remembers(t, Owner(tenant, id, host), b) && presented != ""
    requires AdmissionOf(devices, t, tenant, host, id, presented, cutoff, now, admitted, after)
    ensures admitted <==>
      presented == b.current
      || (b.previous.Some? && presented == b.previous.value.hash && now < b.previous.value.rotatedAt + 60)
      || (t[b.current].legacy && !devices[id].bypassUsed
        && (cutoff.NoCutoff? || (cutoff.CutoffAt? && now <= cutoff.time)))
    ensures after == if admitted && !Possesses(b, presented, now) then MarkBypass(devices, id) else devices
  {
  }

  function Touch(devices: Devices, id: string, now: int): Devices
    requires id in devices
  {
    devices[id := devices[id].(lastSeen := Some(now))]
  }

  ghost predicate Refreshes(devices: Devices, t: Table, tenant: string, host: string, id: string, presented: Hash,
                            cutoff: Cutoff, now: int, after: Devices)
    requires id in devices
  {
    exists claimed :: AdmissionOf(devices, t, tenant, host, id, presented, cutoff, now, true, claimed) &&
      id in claimed && after == Touch(claimed, id, now)
  }
}
