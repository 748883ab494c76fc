/** Kill switches: the grammar of their scopes, what one switch stops, and how the cache
    follows the table. */
module KillSwitch {
  import opened Sequences

  // ---- Scopes ----

  function TenantScope(tenant: string): string {
    "tenant:" + tenant
  }

  function CapabilityScope(capability: string): string {
    "capability:" + capability
  }

  function PairScope(tenant: string, capability: string): string {
    "tenant:" + tenant + ":capability:" + capability
  }

  function Split(s: string): (parts: seq<string>)
    ensures parts != []
  {
    if s == "" then [""]
    else if s[0] == ':' then [""] + Split(s[1..])
    else
      var rest := Split(s[1..]);
      [[s[0]] + rest[0]] + rest[1..]
  }

  function Join(parts: seq<string>): string
    requires parts != []
  {
    if |parts| == 1 then parts[0] else parts[0] + ":" + Join(parts[1..])
  }

  predicate NoColon(s: string) {
    forall i :: 0 <= i < |s| ==> s[i] != ':'
  }

  predicate Forbidden(c: char) {
    c == ' ' || c == '\t' || c == '\r' || c == '\n' || c == '/'
  }

  predicate Clean(s: string) {
    forall i :: 0 <= i < |s| ==> !Forbidden(s[i])
  }

  /** A usable id: not empty, and free of colons, blanks and slashes. */
  predicate Usable(id: string) {
    id != "" && forall i :: 0 <= i < |id| ==> id[i] !in ": \t\r\n/"
  }

  predicate WellFormed(s: string) {
    var parts := Split(s);
    s == "global"
    || ((if |parts| == 2 then (parts[0] == "tenant" || parts[0] == "capability") && parts[1] != ""
         else |parts| == 4 && parts[0] == "tenant" && parts[1] != "" && parts[2] == "capability" && parts[3] != "")
        && forall i :: 0 <= i < |parts| ==> Clean(parts[i]))
  }

  lemma {:induction false} JoinSplit(s: string)
    ensures Join(Split(s)) == s
    ensures forall i :: 0 <= i < |Split(s)| ==> NoColon(Split(s)[i])
  {
    if s != "" {
      JoinSplit(s[1..]);
      var rest := Split(s[1..]);
      if s[0] == ':' {
        assert Split(s)[1..] == rest;
      } else {
        assert Split(s)[1..] == rest[1..];
        assert Join(Split(s)) == [s[0]] + Join(rest);
      }
    }
  }

  lemma {:induction false} SplitJoin(parts: seq<string>)
    requires parts != [] && forall i :: 0 <= i < |parts| ==> NoColon(parts[i])
    ensures Split(Join(parts)) == parts
    decreases |parts|, |parts[0]|
  {
    var s := Join(parts);
    if parts[0] == "" {
      if |parts| > 1 {
        SplitJoin(parts[1..]);
        assert s[1..] == Join(parts[1..]);
      }
    } else {
      var fewer := [parts[0][1..]] + parts[1..];
      assert fewer[1..] == parts[1..];
      SplitJoin(fewer);
      assert parts[0][0] != ':' && s[0] == parts[0][0];
      assert s[1..] == Join(fewer);
      assert [s[0]] + fewer[0] == parts[0] && [parts[0]] + fewer[1..] == parts;
    }
  }

  lemma SplitPair(a: string, b: string)
    requires NoColon(a) && NoColon(b)
    ensures Split(a + ":" + b) == [a, b]
  {
    SplitJoin([a, b]);
    assert [a, b][1..] == [b];
  }

  lemma SplitFour(a: string, b: string, c: string, d: string)
    requires NoColon(a) && NoColon(b) && NoColon(c) && NoColon(d)
    ensures Split(a + ":" + b + ":" + c + ":" + d) == [a, b, c, d]
  {
    var parts := [a, b, c, d];
    SplitJoin(parts);
    JoinFour(a, b, c, d);
  }

  lemma JoinFour(a: string, b: string, c: string, d: string)
    ensures Join([a, b, c, d]) == a + ":" + b + ":" + c + ":" + d
  {
    assert [a, b, c, d][1..] == [b, c, d] && [b, c, d][1..] == [c, d] && [c, d][1..] == [d];
    assert Join([c, d]) == c + ":" + d;
    assert Join([b, c, d]) == b + ":" + (c + ":" + d);
    assert a + ":" + (b + ":" + (c + ":" + d)) == a + ":" + b + ":" + c + ":" + d;
  }

  lemma TenantSplits(tenant: string)
    requires NoColon(tenant)
    ensures Split(TenantScope(tenant)) == ["tenant", tenant]
  {
    SplitPair("tenant", tenant);
    assert TenantScope(tenant) == "tenant" + ":" + tenant;
  }

  lemma CapabilitySplits(capability: string)
    requires NoColon(capability)
    ensures Split(CapabilityScope(capability)) == ["capability", capability]
  {
    SplitPair("capability", capability);
    assert CapabilityScope(capability) == "capability" + ":" + capability;
  }

  lemma PairSplits(tenant: string, capability: string)
    requires NoColon(tenant) && NoColon(capability)
    ensures Split(PairScope(tenant, capability)) == ["tenant", tenant, "capability", capability]
  {
    SplitFour("tenant", tenant, "capability", capability);
    assert PairScope(tenant, capability) == "tenant" + ":" + tenant + ":" + "capability" + ":" + capability;
  }

  lemma GlobalSplits()
    ensures Split("global") == ["global"]
  {
    SplitJoin(["global"]);
  }

  /** Built from usable ids. */
  ghost predicate Constructed(s: string) {
    || (exists t :: Usable(t) && s == TenantScope(t))
    || (exists c :: Usable(c) && s == CapabilityScope(c))
    || (exists t, c :: Usable(t) && Usable(c) && s == PairScope(t, c))
  }

  lemma WellFormedIsConstructed(s: string)
    requires WellFormed(s) && s != "global"
    ensures Constructed(s)
  {
    JoinSplit(s);
    var parts := Split(s);
    if |parts| == 2 {
      assert parts[1..] == [parts[1]];
      assert s == parts[0] + ":" + parts[1] && Usable(parts[1]);
      assert s == TenantScope(parts[1]) || s == CapabilityScope(parts[1]);
    } else {
      assert parts == [parts[0], parts[1], parts[2], parts[3]];
      JoinFour(parts[0], parts[1], parts[2], parts[3]);
      assert s == PairScope(parts[1], parts[3]) && Usable(parts[1]) && Usable(parts[3]);
    }
  }

  lemma TwoPartsWellFormed(s: string, kind: string, id: string)
    requires Split(s) == [kind, id] && (kind == "tenant" || kind == "capability") && Usable(id)
    ensures WellFormed(s)
  {
  }

  lemma FourPartsWellFormed(s: string, tenant: string, capability: string)
    requires Split(s) == ["tenant", tenant, "capability", capability] && Usable(tenant) && Usable(capability)
    ensures WellFormed(s)
  {
  }

  lemma ConstructedIsWellFormed(s: string)
    requires Constructed(s)
    ensures WellFormed(s)
  {
    if t :| Usable(t) && s == TenantScope(t) {
      TenantSplits(t);
      TwoPartsWellFormed(s, "tenant", t);
    } else if c :| Usable(c) && s == CapabilityScope(c) {
      CapabilitySplits(c);
      TwoPartsWellFormed(s, "capability", c);
    } else {
      var t, c :| Usable(t) && Usable(c) && s == PairScope(t, c);
      PairSplits(t, c);
      FourPartsWellFormed(s, t, c);
    }
  }

  /** The checker accepts exactly what the constructors build from usable ids, and the
      global scope. */
  lemma WellFormedIffConstructed(s: string)
    ensures WellFormed(s) <==> s == "global" || Constructed(s)
  {
    if WellFormed(s) && s != "global" { WellFormedIsConstructed(s); }
    if Constructed(s) { ConstructedIsWellFormed(s); }
  }

  // ---- What a switch stops ----

  /** The scopes a call is checked against; a call without a capability skips two. */
  function Relevant(tenant: string, capability: string): set<string> {
    {"global", TenantScope(tenant)} + if capability == "" then {}
      else {CapabilityScope(capability), PairScope(tenant, capability)}
  }

  predicate On(flags: map<string, bool>, scope: string) {
    scope in flags && flags[scope]
  }

  predicate Killed(flags: map<string, bool>, tenant: string, capability: string) {
    exists scope :: scope in Relevant(tenant, capability) && On(flags, scope)
  }

  lemma TenantSeparate(t: string, u: string, d: string)
    requires Usable(t) && Usable(u) && (d == "" || Usable(d))
    ensures TenantScope(t) in Relevant(u, d) <==> t == u
  {
    TenantSplits(t);
    TenantSplits(u);
    GlobalSplits();
    CapabilitySplits(d);
    PairSplits(u, d);
    assert ["tenant", t][1] == t && ["tenant", u][1] == u;
    assert |["tenant", t]| != |["global"]| && |["tenant", t]| != |["tenant", u, "capability", d]|;
    assert ["tenant", t][0] != ["capability", d][0];
  }

  lemma CapabilitySeparate(c: string, u: string, d: string)
    requires Usable(c) && Usable(u) && (d == "" || Usable(d))
    ensures CapabilityScope(c) in Relevant(u, d) <==> c == d
  {
    CapabilitySplits(c);
    TenantSplits(u);
    GlobalSplits();
    CapabilitySplits(d);
    PairSplits(u, d);
    assert ["capability", c][1] == c && ["capability", d][1] == d;
    assert |["capability", c]| != |["global"]| && |["capability", c]| != |["tenant", u, "capability", d]|;
    assert ["capability", c][0] != ["tenant", u][0];
  }

  lemma PairSeparate(t: string, c: string, u: string, d: string)
    requires Usable(t) && Usable(c) && Usable(u) && (d == "" || Usable(d))
    ensures PairScope(t, c) in Relevant(u, d) <==> t == u && c == d
  {
    PairSplits(t, c);
    TenantSplits(u);
    GlobalSplits();
    CapabilitySplits(d);
    PairSplits(u, d);
    var a, b := ["tenant", t, "capability", c], ["tenant", u, "capability", d];
    assert a[1] == t && a[3] == c && b[1] == u && b[3] == d;
    assert |a| != |["global"]| && |a| != |["tenant", u]| && |a| != |["capability", d]|;
  }

  /** Distinct usable ids never share a scope, so a tenant's switch stops only its own calls,
      a capability's only that capability and a pair's only the pair. */
  lemma OneSwitchStops(flags: map<string, bool>, t: string, c: string, u: string, d: string)
    requires Usable(t) && Usable(c) && Usable(u) && (d == "" || Usable(d))
    ensures Killed(flags[TenantScope(t) := true], u, d) <==> t == u || Killed(flags, u, d)
    ensures Killed(flags[CapabilityScope(c) := true], u, d) <==> c == d || Killed(flags, u, d)
    ensures Killed(flags[PairScope(t, c) := true], u, d) <==> (t == u && c == d) || Killed(flags, u, d)
    ensures Killed(flags["global" := true], u, d)
  {
    TenantSeparate(t, u, d);
    Flipped(flags, TenantScope(t), u, d);
    CapabilitySeparate(c, u, d);
    Flipped(flags, CapabilityScope(c), u, d);
    PairSeparate(t, c, u, d);
    Flipped(flags, PairScope(t, c), u, d);
    Flipped(flags, "global", u, d);
    assert "global" in Relevant(u, d);
  }

  lemma Flipped(flags: map<string, bool>, scope: string, u: string, d: string)
    ensures Killed(flags[scope := true], u, d) <==> scope in Relevant(u, d) || Killed(flags, u, d)
  {
  }

  // ---- Cache and table ----

  class Switchboard {
    var flags: map<string, bool>
    var table: map<string, bool>

    constructor ()
      ensures flags == map[] && table == map[]
    {
      flags, table := map[], map[];
    }

    /** The levels one after another. */
    method IsKilled(tenant: string, capability: string) returns (killed: bool)
      ensures killed <==> Killed(flags, tenant, capability)
    {
      if On(flags, "global") {
        assert "global" in Relevant(tenant, capability);
        return true;
      }
      if On(flags, TenantScope(tenant)) {
        assert TenantScope(tenant) in Relevant(tenant, capability);
        return true;
      }
      if capability != "" {
        if On(flags, CapabilityScope(capability)) {
          assert CapabilityScope(capability) in Relevant(tenant, capability);
          return true;
        }
        if On(flags, PairScope(tenant, capability)) {
          assert PairScope(tenant, capability) in Relevant(tenant, capability);
          return true;
        }
      }
      killed := false;
    }

    /** Table first; the cache only moves once the row is stored. */
    method SetKill(scope: string, killed: bool, stores: bool) returns (ok: bool)
      modifies this
      ensures ok == stores
      ensures table == if ok then old(table)[scope := killed] else old(table)
      ensures flags == if ok then old(flags)[scope := killed] else old(flags)
      ensures ok && old(flags) == old(table) ==> flags == table
    {
      if !stores { return false; }
      table := table[scope := killed];
      flags := flags[scope := killed];
      ok := true;
    }

    /** Rebuilds the cache from every row. */
    method LoadAll()
      modifies `flags
      ensures flags == table
    {
      var loaded := map[];
      var todo := table.Keys;
      while todo != {}
        invariant todo <= table.Keys && loaded == map k | k in table && k !in todo :: table[k]
        decreases todo
      {
        var k :| k in todo;
        loaded := loaded[k := table[k]];
        todo := todo - {k};
      }
      flags := loaded;
    }
  }

  // ---- Interleavings ----

  datatype Setting = Setting(scope: string, killed: bool)

  /** `sets` holds the calls that have stored their row and not yet written the cache, `loads`
      the rows that reloads have read and not yet installed. */
  datatype State = State(
    table: map<string, bool>, flags: map<string, bool>, sets: map<int, Setting>, loads: map<int, map<string, bool>>)

  datatype Event = Store(n: int, scope: string, killed: bool) | Cache(n: int) | Read(m: int) | Install(m: int)

  predicate Possible(s: State, e: Event) {
    match e
    case Store(n, _, _) => n !in s.sets
    case Cache(n) => n in s.sets
    case Read(m) => m !in s.loads
    case Install(m) => m in s.loads
  }

  function Step(s: State, e: Event): State
    requires Possible(s, e)
  {
    match e
    case Store(n, scope, killed) => s.(table := s.table[scope := killed], sets := s.sets[n := Setting(scope, killed)])
    case Cache(n) => s.(flags := s.flags[s.sets[n].scope := s.sets[n].killed], sets := s.sets - {n})
    case Read(m) => s.(loads := s.loads[m := s.table])
    case Install(m) => s.(flags := s.loads[m], loads := s.loads - {m})
  }

  predicate Runs(s: State, events: seq<Event>)
    decreases |events|, 0
  {
    events == [] || (Runs(s, Front(events)) && Possible(After(s, Front(events)), Last(events)))
  }

  function After(s: State, events: seq<Event>): State
    requires Runs(s, events)
    decreases |events|, 1
  {
    if events == [] then s else Step(After(s, Front(events)), Last(events))
  }

  /** A call writes the cache once for the row it stored, and a reload once for what it read. */
  lemma WritesOnce(s: State, e: Event)
    requires Possible(s, e) && (e.Cache? || e.Install?)
    ensures !Possible(Step(s, e), e)
  {
  }

  // ---- What the history says ----

  /** The scope's row: the last store decides. */
  predicate Stored(events: seq<Event>, x: string, start: bool)
    decreases |events|
  {
    if events == [] then start
    else if Last(events).Store? && Last(events).scope == x then Last(events).killed
    else Stored(Front(events), x, start)
  }

  /** What the call with this number stored last. */
  function SettingOf(events: seq<Event>, n: int): Setting
    decreases |events|
  {
    if events == [] then Setting("", false)
    else if Last(events).Store? && Last(events).n == n then Setting(Last(events).scope, Last(events).killed)
    else SettingOf(Front(events), n)
  }

  /** What had happened when the reload with this number read the rows. */
  function BeforeRead(events: seq<Event>, m: int): (before: seq<Event>)
    ensures |before| <= |events|
    decreases |events|
  {
    if events == [] then []
    else if Last(events) == Read(m) then Front(events)
    else BeforeRead(Front(events), m)
  }

  /** The event writes the cache at the scope. */
  predicate Writes(before: seq<Event>, e: Event, x: string) {
    e.Install? || (e.Cache? && SettingOf(before, e.n).scope == x)
  }

  /** What such a write puts there. */
  predicate Written(before: seq<Event>, e: Event, x: string, start: bool)
    requires Writes(before, e, x)
  {
    if e.Install? then Stored(BeforeRead(before, e.m), x, start) else SettingOf(before, e.n).killed
  }

  /** The cache at the scope: the last write decides. */
  predicate Cached(events: seq<Event>, x: string, row: bool, flag: bool)
    decreases |events|
  {
    if events == [] then flag
    else if Writes(Front(events), Last(events), x) then Written(Front(events), Last(events), x, row)
    else Cached(Front(events), x, row, flag)
  }

  predicate Idle(s: State) {
    s.sets == map[] && s.loads == map[]
  }

  lemma {:induction false} HistoryTells(s: State, events: seq<Event>, x: string)
    requires Idle(s) && Runs(s, events)
    ensures var u := After(s, events);
      && On(u.table, x) == Stored(events, x, On(s.table, x))
      && On(u.flags, x) == Cached(events, x, On(s.table, x), On(s.flags, x))
      && (forall n :: n in u.sets ==> u.sets[n] == SettingOf(events, n))
      && (forall m :: m in u.loads ==> On(u.loads[m], x) == Stored(BeforeRead(events, m), x, On(s.table, x)))
    decreases |events|
  {
    if events != [] { HistoryTells(s, Front(events), x); }
  }

  /** Nothing after this point writes the cache at the scope. */
  predicate NoWrite(before: seq<Event>, after: seq<Event>, x: string)
    decreases |after|
  {
    after == [] || (NoWrite(before, Front(after), x) && !Writes(before + Front(after), Last(after), x))
  }

  lemma {:induction false} LastWriteStands(before: seq<Event>, after: seq<Event>, x: string, row: bool, flag: bool)
    requires NoWrite(before, after, x)
    ensures Cached(before + after, x, row, flag) == Cached(before, x, row, flag)
    decreases |after|
  {
    if after == [] {
      assert before + [] == before;
    } else {
      assert Front(before + after) == before + Front(after);
      LastWriteStands(before, Front(after), x, row, flag);
    }
  }

  /** Cache and row agree at a scope, exactly: at the last cache write, be it a call's own or a
      reload's, the value put there is the value of the last store up to now. */
  lemma AgreesExactly(s: State, before: seq<Event>, write: Event, after: seq<Event>, x: string)
    requires Idle(s) && Runs(s, before + [write] + after)
    requires Writes(before, write, x) && NoWrite(before + [write], after, x)
    ensures var events := before + [write] + after;
      (On(After(s, events).flags, x) == On(After(s, events).table, x))
        == (Written(before, write, x, On(s.table, x)) == Stored(events, x, On(s.table, x)))
  {
    var events := before + [write] + after;
    HistoryTells(s, events, x);
    LastWriteStands(before + [write], after, x, On(s.table, x), On(s.flags, x));
    assert Front(before + [write]) == before;
  }

  // ---- What to avoid ----

  predicate SetPending(s: State, x: string) {
    exists n :: n in s.sets && s.sets[n].scope == x
  }

  predicate LoadPending(s: State) {
    exists m :: m in s.loads
  }

  predicate WritePending(s: State, x: string) {
    LoadPending(s) || SetPending(s, x)
  }

  /** Every write still to come puts the row's value into the cache, and while cache and row
      differ at least one is still to come. */
  predicate Settling(s: State, x: string) {
    && (forall n :: n in s.sets && s.sets[n].scope == x ==> s.sets[n].killed == On(s.table, x))
    && (forall m :: m in s.loads ==> On(s.loads[m], x) == On(s.table, x))
    && (On(s.flags, x) != On(s.table, x) ==> WritePending(s, x))
  }

  /** A call changes the row while another call on the scope, or any reload, is under way. */
  predicate Overtakes(s: State, e: Event, x: string) {
    e.Store? && e.scope == x && e.killed != On(s.table, x) && WritePending(s, x)
  }

  lemma StoreSettling(s: State, e: Event, x: string)
    requires Settling(s, x) && Possible(s, e) && e.Store?
    ensures Settling(Step(s, e), x) <==> !Overtakes(s, e, x)
  {
    var u := Step(s, e);
    assert u.sets[e.n] == Setting(e.scope, e.killed);
    if Overtakes(s, e, x) && LoadPending(s) {
      var m :| m in s.loads;
      assert On(u.loads[m], x) != On(u.table, x);
    } else if SetPending(s, x) {
      var k :| k in s.sets && s.sets[k].scope == x;
      assert u.sets[k] == s.sets[k];
    }
  }

  /** Exactly the overtaking store breaks the invariant. */
  lemma StepSettling(s: State, e: Event, x: string)
    requires Settling(s, x) && Possible(s, e)
    ensures Settling(Step(s, e), x) <==> !Overtakes(s, e, x)
  {
    var u := Step(s, e);
    match e
    case Store(_, _, _) => StoreSettling(s, e, x);
    case Cache(n) =>
      if s.sets[n].scope != x && SetPending(s, x) {
        var k :| k in s.sets && s.sets[k].scope == x;
        assert k in u.sets;
      }
    case Read(m) => assert m in u.loads;
    case Install(m) =>
  }

  predicate NeverOvertakes(s: State, events: seq<Event>, x: string)
    requires Runs(s, events)
    decreases |events|
  {
    events == [] || (NeverOvertakes(s, Front(events), x) && !Overtakes(After(s, Front(events)), Last(events), x))
  }

  /** Over every run in which no store overtakes: whenever nothing is under way that could write
      the scope, cache and row agree there. */
  lemma {:induction false} SettledRunsAgree(s: State, events: seq<Event>, x: string)
    requires Settling(s, x) && Runs(s, events) && NeverOvertakes(s, events, x)
    ensures Settling(After(s, events), x)
    ensures !WritePending(After(s, events), x) ==> On(After(s, events).flags, x) == On(After(s, events).table, x)
    decreases |events|
  {
    if events != [] {
      SettledRunsAgree(s, Front(events), x);
      StepSettling(After(s, Front(events)), Last(events), x);
    }
  }

  /** And every overtaking store can end with cache and row apart: let the overtaken write come
      last. */
  lemma OvertakenParts(s: State, e: Event, x: string) returns (write: Event)
    requires Settling(s, x) && Possible(s, e) && Overtakes(s, e, x)
    ensures var u := Step(s, e);
      && Possible(u, Cache(e.n)) && Possible(Step(u, Cache(e.n)), write) && (write.Cache? || write.Install?)
      && var end := Step(Step(u, Cache(e.n)), write); On(end.flags, x) != On(end.table, x)
  {
    if LoadPending(s) {
      var m :| m in s.loads;
      write := Install(m);
    } else {
      assert SetPending(s, x);
      var k :| k in s.sets && s.sets[k].scope == x;
      write := Cache(k);
    }
  }

  // ---- Sufficient and failing histories ----

  predicate NoStore(events: seq<Event>, x: string) {
    forall i :: 0 <= i < |events| && events[i].Store? ==> events[i].scope != x
  }

  lemma {:induction false} StoredStands(before: seq<Event>, after: seq<Event>, x: string, start: bool)
    requires NoStore(after, x)
    ensures Stored(before + after, x, start) == Stored(before, x, start)
    decreases |after|
  {
    if after == [] {
      assert before + [] == before;
    } else {
      assert Front(before + after) == before + Front(after);
      StoredStands(before, Front(after), x, start);
    }
  }

  lemma {:induction false} BeforeReadStands(before: seq<Event>, m: int, between: seq<Event>)
    requires Read(m) !in between
    ensures BeforeRead(before + [Read(m)] + between, m) == before
    decreases |between|
  {
    if between == [] {
      assert before + [Read(m)] + [] == before + [Read(m)] && Front(before + [Read(m)]) == before;
    } else {
      assert Front(before + [Read(m)] + between) == before + [Read(m)] + Front(between);
      assert Last(between) in between;
      BeforeReadStands(before, m, Front(between));
    }
  }

  lemma StoredSince(before: seq<Event>, m: int, between: seq<Event>, after: seq<Event>, x: string, row: bool)
    requires Read(m) !in between && NoStore(between, x) && NoStore(after, x)
    ensures var first := before + [Read(m)] + between;
      && Stored(first + [Install(m)] + after, x, row) == Stored(before, x, row)
      && Written(first, Install(m), x, row) == Stored(before, x, row)
  {
    var first := before + [Read(m)] + between;
    BeforeReadStands(before, m, between);
    StoredStands(first + [Install(m)], after, x, row);
    StoredStands(first, [Install(m)], x, row);
    StoredStands(before + [Read(m)], between, x, row);
    StoredStands(before, [Read(m)], x, row);
  }

  /** A reload that reads after the scope's last store and is the last to write settles it. */
  lemma ReloadSettles(s: State, before: seq<Event>, m: int, between: seq<Event>, after: seq<Event>, x: string)
    requires Idle(s) && Read(m) !in between && NoStore(between, x) && NoStore(after, x)
    requires var first := before + [Read(m)] + between;
      Runs(s, first + [Install(m)] + after) && NoWrite(first + [Install(m)], after, x)
    ensures var end := After(s, before + [Read(m)] + between + [Install(m)] + after);
      On(end.flags, x) == On(end.table, x) == Stored(before, x, On(s.table, x))
  {
    var first := before + [Read(m)] + between;
    StoredSince(before, m, between, after, x, On(s.table, x));
    HistorySettles(s, first, Install(m), after, x, Stored(before, x, On(s.table, x)));
  }

  lemma HistorySettles(s: State, before: seq<Event>, write: Event, after: seq<Event>, x: string, value: bool)
    requires Idle(s) && Runs(s, before + [write] + after)
    requires Writes(before, write, x) && NoWrite(before + [write], after, x)
    requires Written(before, write, x, On(s.table, x)) == value == Stored(before + [write] + after, x, On(s.table, x))
    ensures On(After(s, before + [write] + after).flags, x) == On(After(s, before + [write] + after).table, x) == value
  {
    AgreesExactly(s, before, write, after, x);
    HistoryTells(s, before + [write] + after, x);
  }

  lemma RunFour(s: State, a: Event, b: Event, c: Event, d: Event)
    requires Possible(s, a) && Possible(Step(s, a), b) && Possible(Step(Step(s, a), b), c)
    requires Possible(Step(Step(Step(s, a), b), c), d)
    ensures Runs(s, [a, b, c, d]) && After(s, [a, b, c, d]) == Step(Step(Step(Step(s, a), b), c), d)
  {
    assert Front([a, b, c, d]) == [a, b, c] && Front([a, b, c]) == [a, b] && Front([a, b]) == [a] && Front([a]) == [];
    assert Runs(s, []) && After(s, []) == s;
    assert Runs(s, [a]) && After(s, [a]) == Step(s, a);
    assert Runs(s, [a, b]) && After(s, [a, b]) == Step(Step(s, a), b);
    assert Runs(s, [a, b, c]) && After(s, [a, b, c]) == Step(Step(Step(s, a), b), c);
  }

  /** A reload that reads just before a call stores its row and installs just after that call
      has written the cache undoes it there, at any scope and from any state. */
  lemma StaleReloadRevives(s: State, x: string, n: int, m: int)
    requires n !in s.sets && m !in s.loads
    ensures var events := [Read(m), Store(n, x, !On(s.table, x)), Cache(n), Install(m)];
      Runs(s, events) && On(After(s, events).flags, x) != On(After(s, events).table, x)
  {
    RunFour(s, Read(m), Store(n, x, !On(s.table, x)), Cache(n), Install(m));
  }

  /** Two calls on one scope that write the cache in the other order than the table leave it
      with the first call's value, at any scope and from any state. */
  lemma OverlappingCallsPart(s: State, x: string, first: int, second: int, killed: bool)
    requires first !in s.sets && second !in s.sets && first != second
    ensures var events := [Store(first, x, !killed), Store(second, x, killed), Cache(second), Cache(first)];
      Runs(s, events) && On(After(s, events).table, x) == killed && On(After(s, events).flags, x) == !killed
  {
    RunFour(s, Store(first, x, !killed), Store(second, x, killed), Cache(second), Cache(first));
  }
}
