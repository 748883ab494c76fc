/** Agent bearer tokens: the in-memory cache, the table behind it, and what a rotation and
    a proof-of-possession check do to them. A token stands for its own hash. */
module AgentTokens {
  import opened Numbers
  import opened Options

  type Hash = string

  /** What a token is bound to. */
  datatype Owner = Owner(tenant: string, device: string, host: string)

  /** A cached token; `supersededAt` is 0 while the token is active. */
  datatype Entry = Entry(owner: Owner, expiresAt: int, supersededAt: int)

  datatype Previous = Previous(hash: Hash, rotatedAt: int)

  /** A stored token. `previous` is the token the last rotation replaced; `legacy` marks a
      row written before possession was checked. */
  datatype Row = Row(entry: Entry, createdAt: int, previous: Option<Previous>, legacy: bool)

  type Cache = map<Hash, Entry>
  type Table = map<Hash, Row>

  datatype Dialect = SQLite | Postgres

  const SUPERSEDE_WINDOW := 60
  const POP_WINDOW := 60
  const LIFETIME := 90 * 24 * 60 * 60

  function OwnerOf(tenant: string, device: string, host: string): Owner {
    Owner(if tenant == "" then "default" else tenant, device, host)
  }

  predicate Active(e: Entry, o: Owner) {
    e.owner == o && e.supersededAt == 0
  }

  // ---- Authentication ----

  predicate Expired(e: Entry, now: int) {
    e.expiresAt > 0 && now > e.expiresAt
  }

  predicate Retired(e: Entry, now: int) {
    e.supersededAt > 0 && now > e.supersededAt
  }

  predicate Live(e: Entry, now: int) {
    !Expired(e, now) && !Retired(e, now)
  }

  /** The first time at which a token is dead, if it ever is. */
  function Death(e: Entry): Option<int> {
    if e.expiresAt > 0 && e.supersededAt > 0 then Some(Min(e.expiresAt, e.supersededAt) + 1)
    else if e.expiresAt > 0 then Some(e.expiresAt + 1)
    else if e.supersededAt > 0 then Some(e.supersededAt + 1)
    else None
  }

  predicate Authenticates(cache: Cache, h: Hash, now: int) {
    h in cache && Live(cache[h], now)
  }

  // ---- Rotation ----

  function RotatedEntry(e: Entry, o: Owner, now: int): Entry {
    if Active(e, o) then e.(supersededAt := now + SUPERSEDE_WINDOW) else e
  }

  function RotatedCache(c: Cache, h: Hash, o: Owner, now: int): Cache {
    map g | g in c.Keys + {h} :: if g == h then Entry(o, now + LIFETIME, 0) else RotatedEntry(c[g], o, now)
  }

  /** The hashes of the owner's active rows. */
  function Actives(t: Table, o: Owner): set<Hash> {
    set g | g in t && Active(t[g].entry, o)
  }

  /** `ORDER BY created_at DESC LIMIT 1`, which leaves ties open. */
  predicate NewestOf(t: Table, hashes: set<Hash>, pick: Hash) {
    pick in hashes && pick in t && forall g :: g in hashes && g in t ==> t[g].createdAt <= t[pick].createdAt
  }

  /** What the prior-token query may answer. */
  predicate PriorOf(t: Table, h: Hash, o: Owner, prior: Option<Hash>) {
    match prior
    case None => Actives(t, o) - {h} == {}
    case Some(p) => NewestOf(t, Actives(t, o) - {h}, p)
  }

  /** SQLite replaces the whole row, so the flag falls back to 0; Postgres keeps it. */
  function NewRow(t: Table, h: Hash, o: Owner, now: int, prior: Option<Hash>, dialect: Dialect): Row {
    Row(
      Entry(o, now + LIFETIME, 0), now,
      match prior case None => None case Some(p) => Some(Previous(p, now)),
      dialect.Postgres? && h in t && t[h].legacy)
  }

  function RotatedTable(t: Table, h: Hash, o: Owner, now: int, prior: Option<Hash>, dialect: Dialect): Table {
    map g | g in t.Keys + {h} ::
      if g == h then NewRow(t, h, o, now, prior, dialect) else t[g].(entry := RotatedEntry(t[g].entry, o, now))
  }

  /** What a restart loads. */
  function Projection(t: Table): Cache {
    map g | g in t :: t[g].entry
  }

  /** Cache and table rotate alike. */
  lemma RotationCommutes(t: Table, h: Hash, o: Owner, now: int, prior: Option<Hash>, dialect: Dialect)
    ensures Projection(RotatedTable(t, h, o, now, prior, dialect)) == RotatedCache(Projection(t), h, o, now)
  {
  }

  /** Each owner has at most one active token. */
  predicate OneActive(c: Cache) {
    forall g, h :: g in c && h in c && c[g].supersededAt == 0 && c[h].supersededAt == 0 && c[g].owner == c[h].owner ==>
      g == h
  }

  /** After a rotation the token is the owner's only active one, whatever the cache held;
      no other owner's token and no deadline already set has changed, and the token just
      replaced gets exactly one window. */
  lemma RotationActivates(c: Cache, h: Hash, o: Owner, now: int)
    requires now > 0
    ensures var after := RotatedCache(c, h, o, now);
      && (forall g :: g in after && Active(after[g], o) <==> g == h)
      && (forall g :: g in c && g != h && c[g].supersededAt != 0 ==> g in after && after[g] == c[g])
      && (forall g :: g in c && g != h && c[g].owner != o ==> g in after && after[g] == c[g])
      && (forall g :: g in c && g != h && Active(c[g], o) ==> g in after && after[g] == c[g].(supersededAt := now + 60))
      && (forall g :: g in after && g != h ==> g in c)
  {
  }

  lemma RotationKeepsOneActive(c: Cache, h: Hash, o: Owner, now: int)
    requires now > 0 && OneActive(c)
    ensures OneActive(RotatedCache(c, h, o, now))
  {
  }

  // ---- What the server remembers about one owner ----

  /** The active token and the one it replaced. */
  datatype Bound = Bound(current: Hash, previous: Option<Previous>)

  ghost predicate Remembers(t: Table, o: Owner, b: Bound) {
    Actives(t, o) == {b.current} && b.current in t && t[b.current].previous == b.previous
  }

  function Rebound(b: Bound, h: Hash, now: int): Bound {
    Bound(h, if h == b.current then None else Some(Previous(b.current, now)))
  }

  /** A rotation remembers exactly the token it replaced; registering the current token
      again forgets the previous one. */
  lemma RotationRemembers(t: Table, h: Hash, o: Owner, now: int, prior: Option<Hash>, dialect: Dialect, b: Bound)
    requires now > 0 && Remembers(t, o, b) && PriorOf(t, h, o, prior)
    ensures Remembers(RotatedTable(t, h, o, now, prior, dialect), o, Rebound(b, h, now))
  {
    var after := RotatedTable(t, h, o, now, prior, dialect);
    forall g ensures g in Actives(after, o) <==> g == h {
    }
    assert Actives(after, o) == {h};
    assert b.current in Actives(t, o);
    if h == b.current {
      assert Actives(t, o) - {h} == {};
      assert prior.None?;
    } else {
      assert b.current in Actives(t, o) - {h};
      assert prior.Some? && prior.value in Actives(t, o);
    }
  }

  /** The first token of an owner has no previous one. */
  lemma FirstRotationRemembers(t: Table, h: Hash, o: Owner, now: int, prior: Option<Hash>, dialect: Dialect)
    requires now > 0 && Actives(t, o) == {} && PriorOf(t, h, o, prior)
    ensures Remembers(RotatedTable(t, h, o, now, prior, dialect), o, Bound(h, None))
  {
  }

  // ---- Proof of possession ----

  datatype Verdict = NoPriorToken | AcceptCurrent | GraceRotationAck | GraceCrashRecovery | Reject

  predicate Accepted(v: Verdict) {
    v.AcceptCurrent? || v.GraceRotationAck? || v.GraceCrashRecovery?
  }

  /** A device row; `bypassUsed` is the one-time latch. */
  datatype Device = Device(tenant: string, host: string, mac: string, lastSeen: Option<int>, bypassUsed: bool)

  type Devices = map<string, Device>

  function Judge(b: Bound, device: Option<Device>, presented: Hash, now: int): Verdict {
    if presented == "" then Reject
    else if presented == b.current then AcceptCurrent
    else if b.previous.None? || presented != b.previous.value.hash ||
      now - b.previous.value.rotatedAt >= POP_WINDOW then Reject
    else if device.None? then GraceRotationAck
    else if device.value.lastSeen.Some? &&
      device.value.lastSeen.value > b.previous.value.rotatedAt then GraceRotationAck
    else GraceCrashRecovery
  }

  /** What a query for the owner's newest active row may answer. */
  predicate ActiveRow(t: Table, o: Owner, row: Option<Hash>) {
    match row
    case None => Actives(t, o) == {}
    case Some(c) => NewestOf(t, Actives(t, o), c)
  }

  function Lookup(devices: Devices, id: string): Option<Device> {
    if id in devices then Some(devices[id]) else None
  }

  function Verify(t: Table, row: Option<Hash>, device: Option<Device>, presented: Hash, now: int): Verdict
    requires row.Some? ==> row.value in t
  {
    match row
    case None => NoPriorToken
    case Some(c) => Judge(Bound(c, t[c].previous), device, presented, now)
  }

  function IsLegacy(t: Table, row: Option<Hash>): bool
    requires row.Some? ==> row.value in t
  {
    row.Some? && t[row.value].legacy
  }

  /** The operator's cutoff for the bypass; a value that does not parse denies it. */
  datatype Cutoff = NoCutoff | CutoffAt(time: int) | Malformed

  predicate Open(cutoff: Cutoff, now: int) {
    cutoff != Malformed && (cutoff.CutoffAt? ==> now <= cutoff.time)
  }

  predicate BypassOpen(device: Option<Device>, cutoff: Cutoff, now: int) {
    Open(cutoff, now) && device.Some? && !device.value.bypassUsed
  }

  /** Who may try the latch: no active row at all, or a refusal against a legacy row. */
  predicate Eligible(v: Verdict, legacy: bool) {
    v.NoPriorToken? || (v.Reject? && legacy)
  }

  /** The caller holds the current token, or the previous one strictly inside its window. */
  predicate Possesses(b: Bound, presented: Hash, now: int) {
    presented == b.current
    || (b.previous.Some? && presented == b.previous.value.hash && now < b.previous.value.rotatedAt + 60)
  }

  /** The token replaced by the last rotation, less than a minute after it. */
  predicate InWindow(current: Hash, previous: Option<Previous>, presented: Hash, now: int) {
    && presented != "" && presented != current
    && previous.Some? && presented == previous.value.hash && now < previous.value.rotatedAt + 60
  }

  /** The device has been seen since, or there is no telling. */
  predicate SeenSince(device: Option<Device>, time: int) {
    device.Some? ==> device.value.lastSeen.Some? && device.value.lastSeen.value > time
  }

  /** What each verdict says about the row it was told from. */
  predicate Tells(v: Verdict, current: Hash, previous: Option<Previous>, device: Option<Device>, presented: Hash,
                  now: int)
  {
    var grace := InWindow(current, previous, presented, now);
    && !v.NoPriorToken?
    && (v.AcceptCurrent? <==> presented != "" && presented == current)
    && (v.GraceRotationAck? <==> grace && SeenSince(device, previous.value.rotatedAt))
    && (v.GraceCrashRecovery? <==> grace && !SeenSince(device, previous.value.rotatedAt))
    && (v.Reject? <==> presented == "" || (presented != current && !grace))
  }

  lemma JudgeTells(b: Bound, device: Option<Device>, presented: Hash, now: int)
    ensures Tells(Judge(b, device, presented, now), b.current, b.previous, device, presented, now)
  {
  }

  lemma AcceptedIffPossessed(b: Bound, device: Option<Device>, presented: Hash, now: int)
    ensures Accepted(Judge(b, device, presented, now)) <==> presented != "" && Possesses(b, presented, now)
    ensures !Judge(b, device, presented, now).NoPriorToken?
  {
  }
}
