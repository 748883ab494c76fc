/** One agent rotating its token against the server, with losses, crashes and restarts on
    its side and expiry on the other. */
module AgentProtocol {
  import opened Options
  import opened Numbers
  import opened Sequences
  import opened AgentTokens

  /** What becomes of a registration attempt: it never gets to the check, lost or refused
      by an earlier gate; it is answered but the answer is lost, or saving it fails; the
      agent crashes between saving and switching; or all goes well. */
  datatype Fate = Unreached | AnswerLost | SaveFailed | CrashedAfterSave | Completed

  /** `renewal` is the new token of a rotating attempt, `cutoff` what the operator has set at
      that time, and `saves` tells whether the server's transaction would commit; the answer is
      the same if it does not. `Sweep` takes a dead token out of the server's cache, `Delete`
      its row out of the table some time later; `ServerRestart` loads the cache anew. */
  datatype Event =
    | Attempt(renewal: Option<Hash>, at: int, cutoff: Cutoff, fate: Fate, saves: bool)
    | Restart(generated: Hash)
    | Sweep(hash: Hash, at: int)
    | Delete(hash: Hash)
    | ServerRestart

  /** The token in memory and in the state file; the server's record of the device, none when
      it has no active row; what the table and the cache hold about the agent's tokens; the
      one-time latch; the tokens whose rows are from before possession was checked; the hashes
      swept and not yet deleted; every token generated so far; and the server's database. */
  datatype State = State(
    memory: Hash, disk: Option<Hash>,
    owner: Owner, bound: Option<Bound>, rows: Cache, cache: Cache, latchUsed: bool, legacy: set<Hash>,
    pending: set<Hash>, clock: int, known: set<Hash>, dialect: Dialect)

  /** A token from the environment, then the saved one, then a new one. */
  function Boot(configured: Option<Hash>, disk: Option<Hash>, generated: Hash): Hash {
    match configured
    case Some(c) => c
    case None => match disk case Some(d) => d case None => generated
  }

  predicate IsCurrent(s: State, h: Hash) {
    s.bound.Some? && s.bound.value.current == h
  }

  predicate Possible(s: State, e: Event) {
    match e
    case Attempt(renewal, at, _, _, _) => s.clock <= at && (renewal.Some? ==> renewal.value !in s.known)
    case Restart(generated) => generated !in s.known
    case Sweep(h, at) => s.clock <= at && h in s.cache && !Live(s.cache[h], at)
    case Delete(h) => h in s.pending
    case ServerRestart => true
  }

  predicate Reaches(e: Event) {
    e.Attempt? && !e.fate.Unreached?
  }

  predicate LatchOpen(s: State, cutoff: Cutoff, at: int) {
    !s.latchUsed && Open(cutoff, at)
  }

  /** The active row is from before possession was checked. */
  predicate OnLegacyRow(s: State) {
    s.bound.Some? && s.bound.value.current in s.legacy
  }

  predicate ShowsPossession(s: State, at: int) {
    s.bound.Some? && Possesses(s.bound.value, s.memory, at)
  }

  /** Possession of the active row's token suffices. Without it the latch has to be open, and
      there must be no active row or only a legacy one. */
  predicate Accepts(s: State, e: Event) {
    Reaches(e)
    && (ShowsPossession(s, e.at) || ((s.bound.None? || OnLegacyRow(s)) && LatchOpen(s, e.cutoff, e.at)))
  }

  function Token(s: State, e: Event): Hash
    requires e.Attempt?
  {
    match e.renewal case Some(h) => h case None => s.memory
  }

  /** The agent switches to the token once it has saved it. */
  predicate AgentKeeps(e: Event) {
    e.Attempt? && (e.fate.Completed? || e.fate.CrashedAfterSave?)
  }

  function MemoryAfter(s: State, e: Event, configured: Option<Hash>): Hash
    requires e.Attempt?
  {
    match e.fate
    case Completed => Token(s, e)
    case CrashedAfterSave => Boot(configured, Some(Token(s, e)), Token(s, e))
    case _ => s.memory
  }

  function NewBound(bound: Option<Bound>, h: Hash, at: int): Bound {
    match bound case Some(b) => Rebound(b, h, at) case None => Bound(h, None)
  }

  function KnownAfter(s: State, e: Event): set<Hash>
    requires e.Attempt?
  {
    match e.renewal case Some(h) => s.known + {h} case None => s.known
  }

  /** An accepted attempt: one that shows no possession spends the latch, and the cache moves,
      whether the rotation is stored or not. SQLite stores a new row, Postgres keeps the legacy
      flag of the row it revives. */
  function Admitted(s: State, e: Event, configured: Option<Hash>): State
    requires e.Attempt?
  {
    var h := Token(s, e);
    s.(
      memory := MemoryAfter(s, e, configured), disk := if AgentKeeps(e) then Some(h) else s.disk,
      bound := if e.saves then Some(NewBound(s.bound, h, e.at)) else s.bound,
      rows := if e.saves then RotatedCache(s.rows, h, s.owner, e.at) else s.rows,
      cache := RotatedCache(s.cache, h, s.owner, e.at), latchUsed := s.latchUsed || !ShowsPossession(s, e.at),
      legacy := if e.saves && s.dialect.SQLite? then s.legacy - {h} else s.legacy,
      clock := e.at, known := KnownAfter(s, e))
  }

  /** What `u` holds after a rotation of the server's side of `s`, stored or not. */
  predicate RotatesTo(s: State, u: State, h: Hash, at: int, saves: bool) {
    && u.owner == s.owner && u.pending == s.pending && u.cache == RotatedCache(s.cache, h, s.owner, at)
    && if saves then
         && u.bound == Some(NewBound(s.bound, h, at)) && u.rows == RotatedCache(s.rows, h, s.owner, at)
         && u.legacy == if s.dialect.SQLite? then s.legacy - {h} else s.legacy
       else u.bound == s.bound && u.rows == s.rows && u.legacy == s.legacy
  }

  lemma AcceptedStep(s: State, e: Event, configured: Option<Hash>)
    requires Accepts(s, e)
    ensures var u := Step(s, e, configured);
      RotatesTo(s, u, Token(s, e), e.at, e.saves) && u.latchUsed == (s.latchUsed || !ShowsPossession(s, e.at))
  {
  }

  /** The row deleted is the active one. */
  predicate Drops(s: State, e: Event) {
    e.Delete? && IsCurrent(s, e.hash)
  }

  function Step(s: State, e: Event, configured: Option<Hash>): State {
    match e
    case Attempt(_, at, _, _, _) =>
      if Accepts(s, e) then Admitted(s, e, configured) else s.(clock := at, known := KnownAfter(s, e))
    case Restart(generated) => s.(memory := Boot(configured, s.disk, generated), known := s.known + {generated})
    case Sweep(h, at) => s.(cache := s.cache - {h}, pending := s.pending + {h}, clock := at)
    case Delete(h) =>
      s.(
        pending := s.pending - {h}, rows := s.rows - {h}, legacy := s.legacy - {h},
        bound := if Drops(s, e) then None else s.bound)
    case ServerRestart => s.(cache := s.rows, pending := {})
  }

  function After(s: State, events: seq<Event>, configured: Option<Hash>): State
    decreases |events|
  {
    if events == [] then s else Step(After(s, Front(events), configured), Last(events), configured)
  }

  predicate Runs(s: State, events: seq<Event>, configured: Option<Hash>)
    decreases |events|
  {
    events == []
    || (Runs(s, Front(events), configured) && Possible(After(s, Front(events), configured), Last(events)))
  }

  /** A crash after saving is a completed registration and a restart, whatever is configured. */
  lemma CrashIsRestart(s: State, e: Event, configured: Option<Hash>, generated: Hash)
    requires e.Attempt? && e.fate.CrashedAfterSave?
    ensures var u := Step(Step(s, e.(fate := Completed), configured), Restart(generated), configured);
      Accepts(s, e) ==> Step(s, e, configured) == u.(known := KnownAfter(s, e))
  {
  }

  // ---- How the agent stands with the server ----

  /** The agent's token is the server's current one, the remembered previous one, neither,
      or the server has no active row. */
  datatype Standing = InStep | OneBehind | Adrift | Unbound

  function StandingOf(s: State): Standing {
    match s.bound
    case None => Unbound
    case Some(b) =>
      if s.memory == b.current then InStep
      else if b.previous.Some? && s.memory == b.previous.value.hash then OneBehind
      else Adrift
  }

  /** A rotation that the server keeps and the agent does not. */
  predicate LosesRotation(e: Event) {
    e.Attempt? && e.renewal.Some? && (e.fate.AnswerLost? || e.fate.SaveFailed?) && e.saves
  }

  /** A rotation that the agent keeps and the server does not. */
  predicate LosesCommit(e: Event) {
    AgentKeeps(e) && e.renewal.Some? && !e.saves
  }

  /** What one event makes of a standing. */
  function Moved(standing: Standing, s: State, e: Event): Standing {
    if Drops(s, e) then Unbound
    else if !Accepts(s, e) then standing
    else if LosesRotation(e) then (if standing.InStep? then OneBehind else Adrift)
    else if LosesCommit(e) && !standing.Unbound? then Adrift
    else if e.Attempt? && !e.saves then standing
    else InStep
  }

  /** The standing told from the history: what was accepted, lost and dropped. */
  function Tally(s: State, events: seq<Event>): Standing
    decreases |events|
  {
    if events == [] then StandingOf(s)
    else Moved(Tally(s, Front(events)), After(s, Front(events), None), Last(events))
  }

  /** All tokens in play have been generated, and the agent's own is saved. */
  predicate Sound(s: State) {
    && Known(s) && s.memory in s.known && s.disk == Some(s.memory)
  }

  /** The active row is stored, and its token is in the cache or on the way out. */
  predicate Known(s: State) {
    && s.legacy + s.pending + s.rows.Keys + s.cache.Keys <= s.known && 0 < s.clock
    && (s.bound.Some? ==>
          var h := s.bound.value.current;
          && h in s.rows && Active(s.rows[h], s.owner) && (h in s.cache || h in s.pending)
          && (s.bound.value.previous.Some? ==> s.bound.value.previous.value.hash in s.known - {h}))
  }

  lemma UnacceptedKnown(s: State, e: Event, configured: Option<Hash>)
    requires Known(s) && Possible(s, e) && !Accepts(s, e)
    ensures Known(Step(s, e, configured))
  {
  }

  lemma StoredKnown(s: State, e: Event)
    requires Sound(s) && Possible(s, e) && Accepts(s, e) && e.saves
    ensures Known(Step(s, e, None))
  {
  }

  lemma RolledBackKnown(s: State, e: Event)
    requires Sound(s) && Possible(s, e) && Accepts(s, e) && !e.saves
    ensures Known(Step(s, e, None))
  {
  }

  lemma StoredMoves(s: State, e: Event)
    requires Sound(s) && Possible(s, e) && Accepts(s, e) && e.saves
    ensures StandingOf(Step(s, e, None)) == Moved(StandingOf(s), s, e)
  {
  }

  lemma RolledBackMoves(s: State, e: Event)
    requires Known(s) && Possible(s, e) && Accepts(s, e) && !e.saves
    ensures StandingOf(Step(s, e, None)) == Moved(StandingOf(s), s, e)
  {
  }

  lemma MemorySaved(s: State, e: Event)
    requires s.memory in s.known && s.disk == Some(s.memory)
    ensures var u := Step(s, e, None); u.memory in u.known && u.disk == Some(u.memory)
  {
  }

  lemma StandingStep(s: State, e: Event)
    requires Sound(s) && Possible(s, e)
    ensures Sound(Step(s, e, None))
    ensures StandingOf(Step(s, e, None)) == Moved(StandingOf(s), s, e)
  {
    MemorySaved(s, e);
    if !Accepts(s, e) {
      UnacceptedKnown(s, e, None);
    } else if e.saves {
      StoredKnown(s, e);
      StoredMoves(s, e);
    } else {
      RolledBackKnown(s, e);
      RolledBackMoves(s, e);
    }
  }

  /** Over every run, expiry and rolled-back transactions included: one lost rotation puts the
      agent one behind, a second sets it adrift, and so do one lost after the latch let it in
      and one that the server fails to store; any other acceptance that is stored brings it
      back in step, and deleting the active row leaves it unbound from wherever it stood. */
  lemma {:induction false} StandingIsTally(s: State, events: seq<Event>)
    requires Sound(s) && Runs(s, events, None)
    ensures Sound(After(s, events, None))
    ensures StandingOf(After(s, events, None)) == Tally(s, events)
    decreases |events|
  {
    if events != [] {
      StandingIsTally(s, Front(events));
      StandingStep(After(s, Front(events), None), Last(events));
    }
  }

  /** Less than 60 seconds since the last rotation. */
  predicate InGrace(s: State, at: int) {
    s.bound.Some? && s.bound.value.previous.Some? && at < s.bound.value.previous.value.rotatedAt + 60
  }

  /** When an attempt that gets to the check is accepted, for every standing. */
  predicate Admissible(standing: Standing, s: State, cutoff: Cutoff, at: int) {
    match standing
    case InStep => true
    case OneBehind => InGrace(s, at) || (OnLegacyRow(s) && LatchOpen(s, cutoff, at))
    case Adrift => OnLegacyRow(s) && LatchOpen(s, cutoff, at)
    case Unbound => LatchOpen(s, cutoff, at)
  }

  lemma AcceptedWhen(s: State, e: Event)
    requires Reaches(e)
    ensures Accepts(s, e) <==> Admissible(StandingOf(s), s, e.cutoff, e.at)
  {
  }

  // ---- Keeping the row ----

  /** When this token dies in a cache. */
  function EndOf(c: Cache, h: Hash): Option<int> {
    if h in c then Death(c[h]) else None
  }

  predicate Before(t: int, end: Option<int>) {
    end.None? || t < end.value
  }

  /** Every prune finds the token of the active row alive in the cache: before the expiry that
      the last registration gave it there, and before the deadline that a rotation has left on
      it even if it was rolled back. And no token is registered while its delete is pending. */
  predicate InTime(s: State, events: seq<Event>)
    decreases |events|
  {
    events == []
    || (var u, e := After(s, Front(events), None), Last(events);
        && InTime(s, Front(events))
        && (e.Sweep? && u.bound.Some? ==> Before(e.at, EndOf(u.cache, u.bound.value.current)))
        && (Accepts(u, e) ==> Token(u, e) !in u.pending))
  }

  lemma InTimeStep(s: State, e: Event)
    requires s.bound.Some? && s.bound.value.current !in s.pending && Possible(s, e)
    requires e.Sweep? ==> Before(e.at, EndOf(s.cache, s.bound.value.current))
    requires Accepts(s, e) ==> Token(s, e) !in s.pending
    ensures var u := Step(s, e, None); u.bound.Some? && u.bound.value.current !in u.pending
  {
  }

  /** An agent that registers again in time never loses its row. */
  lemma {:induction false} InTimeKeepsRow(s: State, events: seq<Event>)
    requires Runs(s, events, None) && InTime(s, events)
    requires s.bound.Some? && s.bound.value.current !in s.pending
    ensures var u := After(s, events, None); u.bound.Some? && u.bound.value.current !in u.pending
    decreases |events|
  {
    if events != [] {
      InTimeKeepsRow(s, Front(events));
      InTimeStep(After(s, Front(events), None), Last(events));
    }
  }

  // ---- Lockout ----

  /** As the record stands no attempt is accepted from now on. With nothing saved, a restart
      generates a token the server has never seen. */
  predicate Shut(s: State, policy: Cutoff) {
    && !Admissible(StandingOf(s), s, policy, s.clock)
    && (s.disk.None? || s.disk == Some(s.memory)) && Known(s)
  }

  function Sooner(a: Option<int>, b: Option<int>): Option<int> {
    if a.None? then b else if b.None? then a else Some(Min(a.value, b.value))
  }

  /** The first time at which the active row can be gone, if it ever can: its token is swept
      when it dies in the cache, or in the cache that a restart of the server loads. */
  function Earliest(s: State): Option<int> {
    if s.bound.None? || s.bound.value.current in s.pending then Some(s.clock)
    else
      var end := Sooner(EndOf(s.cache, s.bound.value.current), EndOf(s.rows, s.bound.value.current));
      if end.None? then None else Some(Max(s.clock, end.value))
  }

  /** The latch cannot help any more: spent, or closed by the operator in time. */
  predicate NoWayBack(s: State, policy: Cutoff) {
    s.latchUsed || Earliest(s).None? || !Open(policy, Earliest(s).value)
  }

  /** The operator leaves the cutoff alone. */
  predicate Under(events: seq<Event>, policy: Cutoff) {
    forall i :: 0 <= i < |events| && events[i].Attempt? ==> events[i].cutoff == policy
  }

  predicate NoneAccepted(s: State, events: seq<Event>, configured: Option<Hash>)
    decreases |events|
  {
    events == []
    || (NoneAccepted(s, Front(events), configured) && !Accepts(After(s, Front(events), configured), Last(events)))
  }

  /** What is not accepted does not bring the end of the row nearer. */
  lemma EndNoNearer(s: State, e: Event)
    requires Known(s) && Possible(s, e) && !Accepts(s, e)
    ensures var t, t' := Earliest(s), Earliest(Step(s, e, None)); t'.None? || (t.Some? && t.value <= t'.value)
  {
  }

  lemma ShutRefuses(s: State, e: Event, policy: Cutoff)
    requires Shut(s, policy) && Possible(s, e) && (e.Attempt? ==> e.cutoff == policy)
    ensures !Accepts(s, e)
  {
  }

  lemma ShutStep(s: State, e: Event, policy: Cutoff)
    requires Shut(s, policy) && NoWayBack(s, policy) && Possible(s, e) && (e.Attempt? ==> e.cutoff == policy)
    ensures !Accepts(s, e)
    ensures Shut(Step(s, e, None), policy) && NoWayBack(Step(s, e, None), policy)
  {
    ShutRefuses(s, e, policy);
    EndNoNearer(s, e);
    UnacceptedKnown(s, e, None);
    var u := Step(s, e, None);
    assert u.bound.None? ==> Earliest(u) == Some(u.clock);
  }

  lemma {:induction false} StaysShut(s: State, events: seq<Event>, policy: Cutoff)
    requires Shut(s, policy) && NoWayBack(s, policy) && Runs(s, events, None) && Under(events, policy)
    ensures NoneAccepted(s, events, None)
    ensures Shut(After(s, events, None), policy) && NoWayBack(After(s, events, None), policy)
    decreases |events|
  {
    if events != [] {
      StaysShut(s, Front(events), policy);
      ShutStep(After(s, Front(events), None), Last(events), policy);
    }
  }

  /** Waiting for the active row to go, with a restart of the server first if the cache would
      keep its token longer than the table says. */
  function Outwait(s: State): seq<Event>
    requires Earliest(s).Some?
  {
    if s.bound.None? then []
    else
      var h, t := s.bound.value.current, Earliest(s).value;
      if h in s.pending then [Delete(h)]
      else if Before(t, EndOf(s.cache, h)) then [ServerRestart, Sweep(h, t), Delete(h)]
      else [Sweep(h, t), Delete(h)]
  }

  /** The way back: outwait the row, then register. */
  function WayBack(s: State, policy: Cutoff): seq<Event>
    requires Earliest(s).Some?
  {
    Outwait(s) + [Attempt(None, Earliest(s).value, policy, Completed, true)]
  }

  lemma RunOne(s: State, e: Event, configured: Option<Hash>)
    ensures After(s, [e], configured) == Step(s, e, configured)
    ensures Runs(s, [e], configured) <==> Possible(s, e)
  {
    assert Front([e]) == [];
  }

  lemma RunSnoc(s: State, events: seq<Event>, e: Event, configured: Option<Hash>)
    ensures After(s, events + [e], configured) == Step(After(s, events, configured), e, configured)
    ensures Runs(s, events + [e], configured) <==>
      Runs(s, events, configured) && Possible(After(s, events, configured), e)
    ensures NoneAccepted(s, events + [e], configured) <==>
      NoneAccepted(s, events, configured) && !Accepts(After(s, events, configured), e)
  {
    assert Front(events + [e]) == events;
  }

  lemma RunTwo(s: State, a: Event, b: Event, configured: Option<Hash>)
    ensures After(s, [a, b], configured) == Step(Step(s, a, configured), b, configured)
    ensures Runs(s, [a, b], configured) <==> Possible(s, a) && Possible(Step(s, a, configured), b)
  {
    RunOne(s, a, configured);
    RunSnoc(s, [a], b, configured);
    assert [a] + [b] == [a, b];
  }

  lemma RunThree(s: State, a: Event, b: Event, c: Event, configured: Option<Hash>)
    ensures var u := Step(Step(s, a, configured), b, configured);
      && After(s, [a, b, c], configured) == Step(u, c, configured)
      && (Runs(s, [a, b, c], configured) <==>
            Possible(s, a) && Possible(Step(s, a, configured), b) && Possible(u, c))
  {
    RunTwo(s, a, b, configured);
    RunSnoc(s, [a, b], c, configured);
    assert [a, b] + [c] == [a, b, c];
  }

  lemma SweptAway(s: State, h: Hash, t: int)
    requires Known(s) && IsCurrent(s, h) && h in s.cache && !Live(s.cache[h], t) && s.clock <= t
    ensures Possible(s, Sweep(h, t)) && Possible(Step(s, Sweep(h, t), None), Delete(h))
    ensures var u := Step(Step(s, Sweep(h, t), None), Delete(h), None);
      u == s.(bound := None, rows := s.rows - {h}, cache := s.cache - {h}, pending := s.pending + {h} - {h},
        legacy := s.legacy - {h}, clock := t)
  {
  }

  /** The row can be gone by then. */
  lemma OutwaitWorks(s: State)
    requires Known(s) && Earliest(s).Some?
    ensures Runs(s, Outwait(s), None)
    ensures var u := After(s, Outwait(s), None);
      && u.bound.None? && u.latchUsed == s.latchUsed && u.clock <= Earliest(s).value
      && u.memory == s.memory && u.disk == s.disk && Known(u)
    ensures forall e :: e in Outwait(s) ==> !e.Attempt?
  {
    if s.bound.Some? {
      var h, t := s.bound.value.current, Earliest(s).value;
      if h in s.pending {
        RunOne(s, Delete(h), None);
      } else if Before(t, EndOf(s.cache, h)) {
        RunThree(s, ServerRestart, Sweep(h, t), Delete(h), None);
        SweptAway(Step(s, ServerRestart, None), h, t);
      } else {
        RunTwo(s, Sweep(h, t), Delete(h), None);
        SweptAway(s, h, t);
      }
    }
  }

  lemma WayBackWorks(s: State, policy: Cutoff)
    requires Known(s) && !NoWayBack(s, policy)
    ensures Runs(s, WayBack(s, policy), None) && Under(WayBack(s, policy), policy)
    ensures !NoneAccepted(s, WayBack(s, policy), None)
    ensures StandingOf(After(s, WayBack(s, policy), None)) == InStep
  {
    OutwaitWorks(s);
    LatchLetsIn(After(s, Outwait(s), None), policy, Earliest(s).value);
    RunSnoc(s, Outwait(s), Attempt(None, Earliest(s).value, policy, Completed, true), None);
  }

  lemma LatchLetsIn(s: State, policy: Cutoff, t: int)
    requires s.bound.None? && !s.latchUsed && Open(policy, t) && s.clock <= t
    ensures var e := Attempt(None, t, policy, Completed, true);
      Possible(s, e) && Accepts(s, e) && StandingOf(Step(s, e, None)) == InStep
  {
  }

  /** And not before: as long as nothing is accepted, a row that has gone went at that time or
      later. */
  lemma {:induction false} GoneNotBefore(s: State, events: seq<Event>)
    requires Sound(s) && Runs(s, events, None) && NoneAccepted(s, events, None)
    ensures var t, u := Earliest(s), After(s, events, None);
      && (Earliest(u).Some? ==> t.Some? && t.value <= Earliest(u).value)
      && (u.bound.None? ==> t.Some? && t.value <= u.clock)
    decreases |events|
  {
    if events != [] {
      GoneNotBefore(s, Front(events));
      StandingIsTally(s, Front(events));
      EndNoNearer(After(s, Front(events), None), Last(events));
    }
  }

  /** Locked out for good, exactly: an agent that is shut out stays so in every future if and
      only if its latch is spent or the operator has closed the bypass by the time its row
      can be gone. */
  lemma ForGoodExactly(s: State, policy: Cutoff)
    requires Shut(s, policy)
    ensures (forall events :: Runs(s, events, None) && Under(events, policy) ==> NoneAccepted(s, events, None))
      <==> NoWayBack(s, policy)
  {
    if NoWayBack(s, policy) {
      forall events | Runs(s, events, None) && Under(events, policy) ensures NoneAccepted(s, events, None) {
        StaysShut(s, events, policy);
      }
    } else {
      WayBackWorks(s, policy);
    }
  }

  lemma LockoutStep(s: State, e: Event, policy: Cutoff)
    requires Shut(s, policy) && s.bound.Some? && Possible(s, e) && !Drops(s, e)
    requires OnLegacyRow(s) && !s.latchUsed && e.Attempt? ==> e.cutoff == policy
    ensures !Accepts(s, e)
    ensures var u := Step(s, e, None);
      && u.bound == s.bound && u.latchUsed == s.latchUsed && Shut(u, policy)
      && OnLegacyRow(u) == OnLegacyRow(s)
  {
  }

  /** While its row stands, a lockout changes nothing on the server, spent latch or not; on a
      legacy row with the latch unspent as long as the operator leaves the cutoff alone. */
  lemma {:induction false} LockoutHolds(s: State, events: seq<Event>, policy: Cutoff)
    requires Shut(s, policy) && s.bound.Some? && Runs(s, events, None) && NoneDropped(s, events)
    requires OnLegacyRow(s) && !s.latchUsed ==> Under(events, policy)
    ensures NoneAccepted(s, events, None)
    ensures var u := After(s, events, None);
      && u.bound == s.bound && u.latchUsed == s.latchUsed && Shut(u, policy)
      && OnLegacyRow(u) == OnLegacyRow(s)
    decreases |events|
  {
    if events != [] {
      LockoutHolds(s, Front(events), policy);
      LockoutStep(After(s, Front(events), None), Last(events), policy);
    }
  }

  predicate NoneDropped(s: State, events: seq<Event>)
    decreases |events|
  {
    events == [] || (NoneDropped(s, Front(events)) && !Drops(After(s, Front(events), None), Last(events)))
  }

  /** Without a single loss: an agent in step that lets its row die with the latch spent is out
      for good once the row is deleted. */
  lemma IdleAgentLosesRow(s: State, policy: Cutoff)
    requires Sound(s) && StandingOf(s) == InStep && s.latchUsed && Earliest(s).Some?
    ensures Runs(s, Outwait(s), None) && NoneAccepted(s, Outwait(s), None)
    ensures var u := After(s, Outwait(s), None); Shut(u, policy) && NoWayBack(u, policy)
  {
    OutwaitWorks(s);
    NoAttemptNoneAccepted(s, Outwait(s), None);
  }

  lemma {:induction false} NoAttemptNoneAccepted(s: State, events: seq<Event>, configured: Option<Hash>)
    requires forall e :: e in events ==> !e.Attempt?
    ensures NoneAccepted(s, events, configured)
    decreases |events|
  {
    if events != [] { NoAttemptNoneAccepted(s, Front(events), configured); }
  }

  // ---- Lost rotations ----

  /** A restart brings back the token in memory. */
  predicate Stable(s: State, configured: Option<Hash>) {
    match configured
    case Some(c) => s.memory == c
    case None => s.disk == Some(s.memory)
  }

  lemma UnacceptedStep(s: State, e: Event, configured: Option<Hash>)
    requires Known(s) && s.memory in s.known && Stable(s, configured) && Possible(s, e) && !Accepts(s, e)
    ensures var u := Step(s, e, configured);
      && Known(u) && s.known <= u.known && u.memory == s.memory && u.disk == s.disk && u.latchUsed == s.latchUsed
      && s.clock <= u.clock && (u.bound.None? || (u.bound == s.bound && OnLegacyRow(u) == OnLegacyRow(s)))
  {
    UnacceptedKnown(s, e, configured);
  }

  /** As long as nothing is accepted the record stays, or its row goes. */
  lemma {:induction false} UnacceptedKeeps(s: State, events: seq<Event>, configured: Option<Hash>)
    requires Known(s) && s.memory in s.known && Stable(s, configured)
    requires Runs(s, events, configured) && NoneAccepted(s, events, configured)
    ensures var u := After(s, events, configured);
      && Known(u) && s.known <= u.known && u.memory == s.memory && u.disk == s.disk && u.latchUsed == s.latchUsed
      && s.clock <= u.clock && (u.bound.None? || (u.bound == s.bound && OnLegacyRow(u) == OnLegacyRow(s)))
    decreases |events|
  {
    if events != [] {
      UnacceptedKeeps(s, Front(events), configured);
      UnacceptedStep(After(s, Front(events), configured), Last(events), configured);
    }
  }

  /** The record after a lost rotation. */
  lemma AfterLoss(s: State, lost: Event)
    requires Sound(s) && StandingOf(s) == InStep && Possible(s, lost) && LosesRotation(lost)
    ensures var u := Step(s, lost, None);
      && Sound(u) && u.memory == s.memory && u.bound.Some? && !OnLegacyRow(u) && u.latchUsed == s.latchUsed
      && u.bound.value == Bound(lost.renewal.value, Some(Previous(s.memory, lost.at))) && u.clock == lost.at
  {
    StandingStep(s, lost);
  }

  lemma SecondLoss(s: State, second: Event)
    requires Sound(s) && StandingOf(s) != InStep && !OnLegacyRow(s) && Possible(s, second) && LosesRotation(second)
    ensures Shut(Step(s, second, None), second.cutoff)
  {
    StandingStep(s, second);
  }

  /** Two lost rotations that reach the server, with nothing accepted between them, leave the
      agent shut out, whatever the time between them and even if its row goes meanwhile. */
  lemma TwoLostRotationsLockOut(s: State, first: Event, between: seq<Event>, second: Event)
    requires Sound(s) && StandingOf(s) == InStep && Possible(s, first) && LosesRotation(first)
    requires var u := Step(s, first, None);
      Runs(u, between, None) && NoneAccepted(u, between, None) && Possible(After(u, between, None), second)
    requires LosesRotation(second)
    ensures Shut(Step(After(Step(s, first, None), between, None), second, None), second.cutoff)
  {
    AfterLoss(s, first);
    UnacceptedKeeps(Step(s, first, None), between, None);
    SecondLoss(After(Step(s, first, None), between, None), second);
  }

  lemma NextDecides(s: State, lostAt: int, next: Event)
    requires Sound(s) && Possible(s, next) && AgentKeeps(next) && next.saves
    requires s.bound.Some? ==> !OnLegacyRow(s) && StandingOf(s) == OneBehind
    requires s.bound.Some? ==> s.bound.value.previous == Some(Previous(s.memory, lostAt))
    ensures var v := Step(s, next, None);
      if (if s.bound.Some? then next.at < lostAt + 60 else LatchOpen(s, next.cutoff, next.at))
      then StandingOf(v) == InStep && Sound(v)
      else Shut(v, next.cutoff)
  {
    AcceptedWhen(s, next);
    StandingStep(s, next);
  }

  /** After one lost rotation the next attempt that arrives decides. While the row stands it
      brings the two together inside 60 seconds and is refused from then on; once the row is
      gone the latch decides. */
  lemma OneLostRotation(s: State, lost: Event, between: seq<Event>, next: Event)
    requires Sound(s) && StandingOf(s) == InStep && Possible(s, lost) && LosesRotation(lost)
    requires var u := Step(s, lost, None);
      Runs(u, between, None) && NoneAccepted(u, between, None) && Possible(After(u, between, None), next)
    requires AgentKeeps(next) && next.saves
    ensures var u := After(Step(s, lost, None), between, None);
      var v := Step(u, next, None);
      if (if u.bound.Some? then next.at < lost.at + 60 else LatchOpen(s, next.cutoff, next.at))
      then StandingOf(v) == InStep && Sound(v)
      else Shut(v, next.cutoff)
  {
    AfterLoss(s, lost);
    UnacceptedKeeps(Step(s, lost, None), between, None);
    NextDecides(After(Step(s, lost, None), between, None), lost.at, next);
  }

  // ---- A lost commit ----

  /** One rotation that the server answers and fails to store sets the agent adrift at once:
      it is shut out, unless its row is a legacy one and the latch open. */
  lemma LostCommitShutsOut(s: State, e: Event, policy: Cutoff)
    requires Sound(s) && StandingOf(s) == InStep && Possible(s, e) && LosesCommit(e)
    ensures var u := Step(s, e, None);
      && Sound(u) && StandingOf(u) == Adrift && u.bound == s.bound && u.latchUsed == s.latchUsed
      && (Shut(u, policy) <==> !(OnLegacyRow(s) && LatchOpen(s, policy, e.at)))
  {
    StandingStep(s, e);
  }

  /** But the cache has superseded the token that the table still holds active. 61 seconds later
      the pruner takes it and its row, and from then on the latch decides on any row: the agent
      is shut out in every future if and only if the latch is spent or closed by then. */
  lemma LostCommitForGood(s: State, e: Event, policy: Cutoff)
    requires Sound(s) && StandingOf(s) == InStep && Possible(s, e) && LosesCommit(e)
    requires !(OnLegacyRow(s) && LatchOpen(s, policy, e.at)) && s.memory !in s.pending
    requires Active(s.cache[s.memory], s.owner)
    requires Live(s.cache[s.memory], e.at + 60) && Live(s.rows[s.memory], e.at + 60)
    ensures var u := Step(s, e, None);
      (forall events :: Runs(u, events, None) && Under(events, policy) ==> NoneAccepted(u, events, None))
      <==> s.latchUsed || !Open(policy, e.at + 61)
  {
    LostCommitShutsOut(s, e, policy);
    LostCommitEnd(s, e);
    ForGoodExactly(Step(s, e, None), policy);
  }

  lemma LostCommitEnd(s: State, e: Event)
    requires Sound(s) && StandingOf(s) == InStep && Possible(s, e) && LosesCommit(e) && s.memory !in s.pending
    requires Active(s.cache[s.memory], s.owner)
    requires Live(s.cache[s.memory], e.at + 60) && Live(s.rows[s.memory], e.at + 60)
    ensures Earliest(Step(s, e, None)) == Some(e.at + 61)
  {
  }

  /** What the agent is left with, over every run in which nothing is accepted: a token that
      the server's cache takes for its lifetime unless the server restarts, and that shows
      possession of nothing. */
  lemma {:induction false} LostCommitStrands(s: State, e: Event, events: seq<Event>, t: int)
    requires Sound(s) && StandingOf(s) == InStep && Possible(s, e) && LosesCommit(e)
    requires var u := Step(s, e, None);
      Runs(u, events, None) && NoneAccepted(u, events, None) && After(u, events, None).clock <= t
    ensures var v := After(Step(s, e, None), events, None);
      && v.memory == e.renewal.value && !ShowsPossession(v, t)
      && (Authenticates(v.cache, v.memory, t) <==> ServerRestart !in events && t <= e.at + LIFETIME)
  {
    StandingStep(s, e);
    UnacceptedKeeps(Step(s, e, None), events, None);
    StrandedKeeps(Step(s, e, None), e.renewal.value, Entry(s.owner, e.at + LIFETIME, 0), events);
  }

  /** The cache holds this entry until the token dies or the server restarts, and there is no
      row to load it from. */
  predicate Stranded(s: State, h: Hash, entry: Entry, restarted: bool) {
    && h !in s.rows && (h in s.cache ==> !restarted && s.cache[h] == entry)
    && (!restarted && h !in s.cache ==> !Live(entry, s.clock))
  }

  lemma StrandedStep(s: State, h: Hash, entry: Entry, restarted: bool, e: Event)
    requires Stranded(s, h, entry, restarted) && Possible(s, e) && !Accepts(s, e)
    ensures Stranded(Step(s, e, None), h, entry, restarted || e == ServerRestart)
  {
  }

  lemma {:induction false} StrandedKeeps(s: State, h: Hash, entry: Entry, events: seq<Event>)
    requires Stranded(s, h, entry, false) && Runs(s, events, None) && NoneAccepted(s, events, None)
    ensures Stranded(After(s, events, None), h, entry, ServerRestart in events)
    decreases |events|
  {
    if events != [] {
      StrandedKeeps(s, h, entry, Front(events));
      StrandedStep(After(s, Front(events), None), h, entry, ServerRestart in Front(events), Last(events));
      TakeLast(events);
    }
  }

  // ---- After a loss ----

  /** Sixty seconds after the loss only the latch is left, and only once the row has gone. */
  lemma AttemptTooLate(s: State, lost: Event, between: seq<Event>, next: Event)
    requires Sound(s) && StandingOf(s) == InStep && Possible(s, lost) && LosesRotation(lost)
    requires var u := Step(s, lost, None);
      Runs(u, between, None) && NoneAccepted(u, between, None) && Possible(After(u, between, None), next)
    requires Reaches(next) && lost.at + 60 <= next.at
    ensures var u := After(Step(s, lost, None), between, None);
      Accepts(u, next) <==> u.bound.None? && LatchOpen(s, next.cutoff, next.at)
  {
    AfterLoss(s, lost);
    UnacceptedKeeps(Step(s, lost, None), between, None);
  }

  /** The server's cache takes the replaced token through its deadline, whatever is pruned and
      however often the server restarts, unless an earlier rotation that was rolled back has
      superseded it there already. So an agent that only registers again because its heartbeats
      are refused, and not for expiry, comes too late: nothing but the latch can let it in, and
      only once the row it lost has gone. */
  lemma RefusedHeartbeatsComeTooLate(s: State, lost: Event, between: seq<Event>, t: int, next: Event)
    requires Sound(s) && StandingOf(s) == InStep && Possible(s, lost) && LosesRotation(lost)
    requires s.memory !in s.pending && Active(s.cache[s.memory], s.owner)
    requires var u := Step(s, lost, None);
      Runs(u, between, None) && NoneAccepted(u, between, None) && Possible(After(u, between, None), next)
    requires After(Step(s, lost, None), between, None).clock <= t
    requires !Authenticates(After(Step(s, lost, None), between, None).cache, s.memory, t)
    requires !Expired(s.cache[s.memory], t) && !Expired(s.rows[s.memory], t)
    requires Reaches(next) && t <= next.at
    ensures var u := After(Step(s, lost, None), between, None);
      Accepts(u, next) <==> u.bound.None? && LatchOpen(s, next.cutoff, next.at)
  {
    var x, y := s.cache[s.memory].expiresAt, s.rows[s.memory].expiresAt;
    WaningKeeps(Step(s, lost, None), s.memory, lost.at + SUPERSEDE_WINDOW, x, y, between);
    AttemptTooLate(s, lost, between, next);
  }

  predicate Past(expiry: int, now: int) {
    expiry > 0 && now > expiry
  }

  /** A superseded token: cache and row hold its deadline, and up to then neither lets it go. */
  predicate Waning(s: State, h: Hash, deadline: int, x: int, y: int) {
    && (h in s.cache ==> s.cache[h].supersededAt == deadline && s.cache[h].expiresAt in {x, y})
    && (h in s.rows ==> s.rows[h].supersededAt == deadline && s.rows[h].expiresAt == y)
    && (s.clock <= deadline && !Past(x, s.clock) && !Past(y, s.clock) ==>
          h in s.cache && h in s.rows && h !in s.pending)
  }

  lemma WaningStep(s: State, h: Hash, deadline: int, x: int, y: int, e: Event)
    requires Waning(s, h, deadline, x, y) && Possible(s, e) && !Accepts(s, e)
    ensures Waning(Step(s, e, None), h, deadline, x, y)
  {
  }

  lemma {:induction false} WaningKeeps(s: State, h: Hash, deadline: int, x: int, y: int, events: seq<Event>)
    requires Waning(s, h, deadline, x, y) && Runs(s, events, None) && NoneAccepted(s, events, None)
    ensures Waning(After(s, events, None), h, deadline, x, y)
    decreases |events|
  {
    if events != [] {
      WaningKeeps(s, h, deadline, x, y, Front(events));
      WaningStep(After(s, Front(events), None), h, deadline, x, y, Last(events));
    }
  }

  /** On first install nothing is saved before the first answer: if that answer is lost,
      the running agent can still register, a restarted one is shut out, unless its row is a
      legacy one and the latch open. */
  lemma FirstAnswerLost(s: State, next: Event, policy: Cutoff)
    requires s.disk.None? && StandingOf(s) == InStep && s.bound.value.previous.None?
    requires Known(s) && s.memory in s.known && Possible(s, next)
    ensures next.Restart? ==>
      (Shut(Step(s, next, None), policy) <==> !(OnLegacyRow(s) && LatchOpen(s, policy, s.clock)))
    ensures next.Attempt? && next.fate.Completed? && next.saves ==>
      Sound(Step(s, next, None)) && StandingOf(Step(s, next, None)) == InStep
  {
  }

  lemma FallenBack(s: State, rotation: Event, restart: Event)
    requires Sound(s) && StandingOf(s) == InStep && restart.Restart?
    requires Possible(s, rotation) && rotation.Attempt? && rotation.fate.Completed? && rotation.renewal.Some?
    requires rotation.saves && Possible(Step(s, rotation, Some(s.memory)), restart)
    ensures var u := Step(Step(s, rotation, Some(s.memory)), restart, Some(s.memory));
      && Known(u) && u.memory == s.memory && u.memory in u.known && !OnLegacyRow(u) && u.latchUsed == s.latchUsed
      && u.bound == Some(Bound(rotation.renewal.value, Some(Previous(s.memory, rotation.at))))
  {
    StandingStep(s, rotation.(fate := AnswerLost));
  }

  /** A token fixed in the environment survives no rotation: once a rotation is complete, a
      restart falls back to the configured token. As long as nothing is accepted the server
      takes it for 60 seconds while the rotated row stands, and through the latch once that
      row is gone. */
  lemma ConfiguredTokenFallsBack(s: State, rotation: Event, restart: Event, between: seq<Event>, next: Event)
    requires Sound(s) && StandingOf(s) == InStep
    requires Possible(s, rotation) && rotation.Attempt? && rotation.fate.Completed? && rotation.renewal.Some?
    requires rotation.saves
    requires var u := Step(s, rotation, Some(s.memory)); restart.Restart? && Possible(u, restart)
    requires var u := Step(Step(s, rotation, Some(s.memory)), restart, Some(s.memory));
      && Runs(u, between, Some(s.memory)) && NoneAccepted(u, between, Some(s.memory))
      && Possible(After(u, between, Some(s.memory)), next) && Reaches(next)
    ensures var u := After(Step(Step(s, rotation, Some(s.memory)), restart, Some(s.memory)), between, Some(s.memory));
      Accepts(u, next) <==>
        if u.bound.Some? then next.at < rotation.at + 60 else LatchOpen(s, next.cutoff, next.at)
  {
    FallenBack(s, rotation, restart);
    UnacceptedKeeps(Step(Step(s, rotation, Some(s.memory)), restart, Some(s.memory)), between, Some(s.memory));
  }

  // ---- The agent itself ----

  datatype Saved = Saved(device: string, token: Hash, host: string, machine: string)

  datatype Reply = Unanswered | Failed | Conflict | Answered(device: string)

  /** A state file copied from another machine. */
  predicate Foreign(file: Saved, host: string, machine: string) {
    file.host != "" && file.machine != "" && machine != "" && (file.host != host || file.machine != machine)
  }

  /** Nothing in the file speaks against this host: it was saved here, or it or the host has no
      name to tell by. */
  predicate FromHere(file: Saved, host: string, machine: string) {
    (file.host == host && file.machine == machine) || file.host == "" || file.machine == "" || machine == ""
  }

  class Agent {
    var apiToken: Hash
    var deviceID: string
    var registered: bool
    var file: Option<Saved>
    const host: string
    const machine: string

    /** A cloned image starts afresh; otherwise the saved token is used unless one is
        configured. */
    constructor (configured: Hash, file: Option<Saved>, generated: Hash, host: string, machine: string)
      requires generated != ""
      ensures this.host == host && this.machine == machine && this.file == file
      ensures apiToken ==
        Boot(NonEmpty(configured), if Usable(file, host, machine) then NonEmpty(file.value.token) else None, generated)
      ensures deviceID == if Usable(file, host, machine) then file.value.device else ""
      ensures registered <==> deviceID != ""
      ensures apiToken != ""
      ensures configured != "" ==> apiToken == configured
      ensures file.Some? && FromHere(file.value, host, machine) ==>
        deviceID == file.value.device && (configured == "" && file.value.token != "" ==> apiToken == file.value.token)
      ensures file.None? || !FromHere(file.value, host, machine) ==>
        deviceID == "" && (configured == "" ==> apiToken == generated)
    {
      var token, device := configured, "";
      if file.Some? && !Foreign(file.value, host, machine) {
        if token == "" { token := file.value.token; }
        device := file.value.device;
      }
      if token == "" { token := generated; }
      this.host, this.machine, this.file := host, machine, file;
      apiToken, deviceID, registered := token, device, device != "";
    }

    /** Save first, switch after: on every failure the agent keeps its token and its file,
        and whenever the token moves the file already holds it. */
    method RegisterWithServer(rotating: bool, generated: Hash, reply: Reply, saves: bool) returns (ok: bool)
      modifies `apiToken, `deviceID, `registered, `file
      ensures ok <==> reply.Answered? && (reply.device != "" || rotating) && saves
      ensures ok ==> apiToken == (if rotating then generated else old(apiToken)) && registered
      ensures ok ==> deviceID == (if reply.device != "" then reply.device else old(deviceID))
      ensures ok ==> file == Some(Saved(deviceID, apiToken, host, machine))
      ensures !ok ==>
        apiToken == old(apiToken) && deviceID == old(deviceID) && registered == old(registered) && file == old(file)
    {
      var token := if rotating then generated else apiToken;
      if !reply.Answered? { return false; }
      var device := reply.device;
      if device == "" {
        if !rotating { return false; }
        device := deviceID;
      }
      if !saves { return false; }
      file := Some(Saved(device, token, host, machine));
      apiToken, deviceID, registered := token, device, true;
      ok := true;
    }
  }

  function NonEmpty(h: Hash): Option<Hash> {
    if h == "" then None else Some(h)
  }

  predicate Usable(file: Option<Saved>, host: string, machine: string) {
    file.Some? && !Foreign(file.value, host, machine)
  }

  /** A state file is taken back exactly where nothing speaks against it; so what a registration
      saved is there again after a restart of the same machine, and a clone with a name of its
      own takes neither the token nor the device. */
  lemma StateFileExactly(file: Saved, host: string, machine: string)
    ensures Usable(Some(file), host, machine) <==> FromHere(file, host, machine)
  {
  }

  // ---- The heartbeat loop ----

  const MAX_RETRIES := 5

  /** One turn of the loop: whether the heartbeat went through and, if the loop tries to
      register again, whether that does. */
  datatype Turn = Turn(beat: bool, registers: bool)

  /** Turns after which the count of failures starts again. */
  predicate Resets(turns: seq<Turn>, attempts: set<nat>, i: nat)
    requires i < |turns|
  {
    turns[i].beat || (i in attempts && turns[i].registers)
  }

  /** Four turns without a reset, and then a failed heartbeat. */
  predicate Due(turns: seq<Turn>, attempts: set<nat>, i: nat)
    requires i < |turns|
  {
    i >= MAX_RETRIES - 1 && !turns[i].beat && forall j :: i - (MAX_RETRIES - 1) <= j < i ==> !Resets(turns, attempts, j)
  }

  /** The loop tries to register exactly at the turns that are due. */
  method HeartbeatLoop(turns: seq<Turn>) returns (attempts: set<nat>)
    ensures forall i :: i in attempts <==> 0 <= i < |turns| && Due(turns, attempts, i)
  {
    attempts := {};
    var retries := 0;
    for n := 0 to |turns|
      invariant 0 <= retries <= n
      invariant forall j :: j in attempts ==> 0 <= j < n
      invariant forall j :: n - retries <= j < n ==> !Resets(turns, attempts, j)
      invariant retries < n ==> Resets(turns, attempts, n - retries - 1)
      invariant forall i :: i in attempts <==> 0 <= i < n && Due(turns, attempts, i)
    {
      ghost var before := attempts;
      if turns[n].beat {
        retries := 0;
      } else {
        retries := retries + 1;
        if retries >= MAX_RETRIES {
          attempts := attempts + {n};
          if turns[n].registers { retries := 0; }
        }
      }
      assert forall j: nat :: j < n ==> Resets(turns, attempts, j) == Resets(turns, before, j);
      assert forall j: nat :: j < n ==> Due(turns, attempts, j) == Due(turns, before, j);
    }
  }
}
