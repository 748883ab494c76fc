/** The daily cost cap of AI calls: reservation on a shared counter, reconciliation after
    the call, and the fallback that sums the recorded runs. */
module AiCost {
  import opened Numbers
  import opened Options
  import Sequences

  // ---- What a call costs ----

  /** Integer division of Go: toward zero. */
  function Quotient(a: int, b: int): int
    requires b > 0
  {
    if a >= 0 then a / b else -((-a) / b)
  }

  datatype Usage = Usage(prompt: int, output: int)

  /** What the provider closure did; a panic yields neither response. */
  datatype Call = Returned(chat: Option<Usage>, embed: Option<int>, failed: bool) | Panicked

  datatype Rates = Rates(input: int, output: int)

  function ActualCost(rates: Rates, call: Call): int {
    match call
    case Panicked => 0
    case Returned(chat, embed, _) =>
      var prompt := if embed.Some? then embed.value else if chat.Some? then chat.value.prompt else 0;
      var output := if chat.Some? then chat.value.output else 0;
      Quotient(prompt * rates.input + output * rates.output, 1000)
  }

  predicate Sane(rates: Rates, call: Call) {
    && rates.input >= 0 && rates.output >= 0
    && (call.Returned? ==> (call.chat.Some? ==> call.chat.value.prompt >= 0 && call.chat.value.output >= 0))
    && (call.Returned? ==> (call.embed.Some? ==> call.embed.value >= 0))
  }

  lemma CostNotNegative(rates: Rates, call: Call)
    requires Sane(rates, call)
    ensures ActualCost(rates, call) >= 0
  {
  }

  /** The thousandth part of an amount, cut off toward zero. */
  predicate Thousandth(c: int, x: int) {
    if x >= 0 then 1000 * c <= x < 1000 * (c + 1) else 1000 * (c - 1) < x <= 1000 * c
  }

  /** What is paid for: prompt tokens at the input rate and output tokens at the output rate, per
      thousand. An embedding pays for its own prompt tokens and for no output; a call without a
      response, and one that panics, for nothing. */
  lemma CostExactly(rates: Rates, prompt: int, output: int, embedded: int, failed: bool)
    ensures Thousandth(ActualCost(rates, Returned(Some(Usage(prompt, output)), None, failed)),
                       prompt * rates.input + output * rates.output)
    ensures Thousandth(ActualCost(rates, Returned(None, Some(embedded), failed)), embedded * rates.input)
    ensures Thousandth(ActualCost(rates, Returned(Some(Usage(prompt, output)), Some(embedded), failed)),
                       embedded * rates.input + output * rates.output)
    ensures ActualCost(rates, Returned(None, None, failed)) == 0 == ActualCost(rates, Panicked)
  {
    Cut(prompt * rates.input + output * rates.output);
    Cut(embedded * rates.input + output * rates.output);
    Cut(embedded * rates.input);
    assert 0 * rates.input == 0 && 0 * rates.output == 0;
  }

  lemma Cut(x: int)
    ensures Thousandth(Quotient(x, 1000), x)
  {
  }

  // ---- One run ----

  function Reserved(estimate: int): int {
    Max(estimate, 0)
  }

  function Released(estimate: int, actual: int): int {
    Max(estimate - actual, 0)
  }

  /** What a run that was let in leaves on the counter. */
  function Net(estimate: int, actual: int, persisted: bool): int {
    Reserved(estimate) - Released(estimate, actual) - if persisted then 0 else Reserved(estimate)
  }

  datatype Result = OverCap | Unrecorded | Failed(cost: int) | Succeeded(cost: int)

  class Meter {
    var counter: int
    const cap: int

    constructor (cap: int)
      ensures this.cap == cap && counter == 0
    {
      this.cap, counter := cap, 0;
    }

    /** A cap of 0 means no limit; nothing is reserved for an estimate that is not positive. */
    method ReserveCost(micros: int) returns (ok: bool)
      modifies `counter
      ensures ok <==> micros <= 0 || cap == 0 || old(counter) + micros <= cap
      ensures counter == old(counter) + if ok then Reserved(micros) else 0
    {
      if micros <= 0 { return true; }
      counter := counter + micros;
      if cap == 0 { return true; }
      if counter > cap {
        counter := counter - micros;
        return false;
      }
      ok := true;
    }

    method ReleaseCost(micros: int)
      modifies `counter
      ensures counter == old(counter) - Max(micros, 0)
    {
      if micros > 0 { counter := counter - micros; }
    }

    /** From reservation to audit row. With a nonnegative estimate a recorded run, failed
        or not, costs what it used up to its estimate; a run whose audit row fails gives
        back its reservation on top of what reconciliation gave back. */
    method Run(estimate: int, rates: Rates, call: Call, persists: bool) returns (r: Result)
      modifies `counter
      ensures r.OverCap? <==> !(estimate <= 0 || cap == 0 || old(counter) + estimate <= cap)
      ensures r.OverCap? ==> counter == old(counter)
      ensures !r.OverCap? ==> counter == old(counter) + Net(estimate, ActualCost(rates, call), persists)
      ensures estimate >= 0 && persists && !r.OverCap? ==>
        counter == old(counter) + Min(ActualCost(rates, call), estimate)
      ensures !persists && !r.OverCap? ==> counter == old(counter) - Max(0, estimate - ActualCost(rates, call))
      ensures !r.OverCap? ==> (r.Unrecorded? <==> !persists)
      ensures r.Failed? || r.Succeeded? ==> r.cost == ActualCost(rates, call)
      ensures !r.OverCap? && persists ==> (r.Failed? <==> call.Panicked? || call.failed)
    {
      var ok := ReserveCost(estimate);
      if !ok { return OverCap; }
      var actual := ActualCost(rates, call);
      if estimate - actual > 0 { ReleaseCost(estimate - actual); }
      if !persists {
        ReleaseCost(estimate);
        return Unrecorded;
      }
      r := if call.Panicked? || call.failed then Failed(actual) else Succeeded(actual);
    }
  }

  // ---- Many runs at once ----

  /** Where a run stands. `Checking` has added its estimate and seen the sum. */
  datatype Phase =
    | Checking(estimate: int, seen: int)
    | Refused
    | Holding(estimate: int)
    | Reconciled(estimate: int, actual: int)
    | Recorded(estimate: int, actual: int)
    | Lost(estimate: int, actual: int)

  datatype State = State(counter: int, runs: seq<Phase>)

  datatype Event = Begin(estimate: int) | Decide(i: nat) | Reconcile(i: nat, actual: int)
    | Persist(i: nat, persisted: bool)

  predicate Possible(s: State, e: Event) {
    match e
    case Begin(_) => true
    case Decide(i) => i < |s.runs| && s.runs[i].Checking?
    case Reconcile(i, _) => i < |s.runs| && s.runs[i].Holding?
    case Persist(i, _) => i < |s.runs| && s.runs[i].Reconciled?
  }

  function Step(s: State, e: Event, cap: int): State
    requires Possible(s, e)
  {
    match e
    case Begin(estimate) =>
      if estimate <= 0 then State(s.counter, s.runs + [Holding(estimate)])
      else if cap == 0 then State(s.counter + estimate, s.runs + [Holding(estimate)])
      else State(s.counter + estimate, s.runs + [Checking(estimate, s.counter + estimate)])
    case Decide(i) =>
      var p := s.runs[i];
      if p.seen > cap then State(s.counter - p.estimate, s.runs[i := Refused])
        else s.(runs := s.runs[i := Holding(p.estimate)])
    case Reconcile(i, actual) =>
      var p := s.runs[i];
      State(s.counter - Released(p.estimate, actual), s.runs[i := Reconciled(p.estimate, actual)])
    case Persist(i, persisted) =>
      var p := s.runs[i];
      if persisted then s.(runs := s.runs[i := Recorded(p.estimate, p.actual)])
      else State(s.counter - Reserved(p.estimate), s.runs[i := Lost(p.estimate, p.actual)])
  }

  /** What a run adds up to: what it has on the counter; the part of that bound to be taken
      back, since its sum was over the cap; what a lost run has given back twice; and what
      it commits the tenant to, where a lost run counts nothing rather than less. */
  datatype Measure = Charge | Doomed(cap: int) | Overreleased | Commitment(cap: int)

  function Value(m: Measure, p: Phase): int {
    match m
    case Charge => ChargeOf(p)
    case Doomed(cap) => DoomedPart(p, cap)
    case Overreleased => if p.Lost? then Released(p.estimate, p.actual) else 0
    case Commitment(cap) => if p.Lost? then 0 else ChargeOf(p) - DoomedPart(p, cap)
  }

  function DoomedPart(p: Phase, cap: int): int {
    if p.Checking? && p.seen > cap then p.estimate else 0
  }

  function ChargeOf(p: Phase): int {
    match p
    case Checking(estimate, _) => estimate
    case Refused => 0
    case Holding(estimate) => Reserved(estimate)
    case Reconciled(estimate, actual) => Net(estimate, actual, true)
    case Recorded(estimate, actual) => Net(estimate, actual, true)
    case Lost(estimate, actual) => Net(estimate, actual, false)
  }

  function Sum(runs: seq<Phase>, m: Measure): int {
    if runs == [] then 0 else Value(m, runs[0]) + Sum(runs[1..], m)
  }

  lemma {:induction false} SumUpdate(runs: seq<Phase>, m: Measure, i: nat, p: Phase)
    requires i < |runs|
    ensures Sum(runs[i := p], m) == Sum(runs, m) - Value(m, runs[i]) + Value(m, p)
  {
    if i == 0 {
      assert runs[i := p][1..] == runs[1..];
    } else {
      assert runs[i := p][1..] == runs[1..][i - 1 := p];
      SumUpdate(runs[1..], m, i - 1, p);
    }
  }

  lemma {:induction false} SumAppend(runs: seq<Phase>, m: Measure, p: Phase)
    ensures Sum(runs + [p], m) == Sum(runs, m) + Value(m, p)
  {
    if runs == [] {
      assert runs + [p] == [p];
      assert Sum([p][1..], m) == 0;
    } else {
      assert (runs + [p])[1..] == runs[1..] + [p];
      SumAppend(runs[1..], m, p);
    }
  }

  /** A step appends one phase or replaces one. */
  lemma SumStep(s: State, e: Event, cap: int, m: Measure)
    requires Possible(s, e)
    ensures var u := Step(s, e, cap);
      if e.Begin? then Sum(u.runs, m) == Sum(s.runs, m) + Value(m, u.runs[|s.runs|])
      else Sum(u.runs, m) == Sum(s.runs, m) - Value(m, s.runs[e.i]) + Value(m, u.runs[e.i])
  {
    var u := Step(s, e, cap);
    if e.Begin? {
      SumAppend(s.runs, m, u.runs[|s.runs|]);
    } else {
      SumUpdate(s.runs, m, e.i, u.runs[e.i]);
    }
  }

  function After(s: State, events: seq<Event>, cap: int): State
    requires Runs(s, events, cap)
    decreases |events|
  {
    if events == [] then s else After(Step(s, events[0], cap), events[1..], cap)
  }

  predicate Runs(s: State, events: seq<Event>, cap: int)
    decreases |events|
  {
    events == [] || (Possible(s, events[0]) && Runs(Step(s, events[0], cap), events[1..], cap))
  }

  /** The counter is what its runs have on it. */
  predicate Balanced(s: State, start: int) {
    s.counter == start + Sum(s.runs, Charge)
  }

  /** Commitments stay under the cap but for what was given back twice. */
  predicate UnderCap(s: State, cap: int) {
    Sum(s.runs, Commitment(cap)) <= cap + Sum(s.runs, Overreleased)
  }

  predicate PositiveChecks(s: State) {
    forall i :: 0 <= i < |s.runs| && s.runs[i].Checking? ==> s.runs[i].estimate > 0
  }

  lemma StepBalanced(s: State, e: Event, cap: int, start: int)
    requires Possible(s, e) && Balanced(s, start) && PositiveChecks(s)
    ensures Balanced(Step(s, e, cap), start) && PositiveChecks(Step(s, e, cap))
  {
    SumStep(s, e, cap, Charge);
  }

  /** Conservation, at any cap and from any counter. */
  lemma {:induction false} EveryRunBalanced(s: State, events: seq<Event>, cap: int, start: int)
    requires Runs(s, events, cap) && Balanced(s, start) && PositiveChecks(s)
    ensures Balanced(After(s, events, cap), start)
    decreases |events|
  {
    if events != [] {
      StepBalanced(s, events[0], cap, start);
      EveryRunBalanced(Step(s, events[0], cap), events[1..], cap, start);
    }
  }

  /** The counter splits into commitments, doomed estimates and double releases. */
  lemma {:induction false} ChargesSplit(runs: seq<Phase>, cap: int)
    requires forall i :: 0 <= i < |runs| && runs[i].Checking? ==> runs[i].estimate > 0
    ensures Sum(runs, Charge) == Sum(runs, Commitment(cap)) + Sum(runs, Doomed(cap)) - Sum(runs, Overreleased)
    ensures Sum(runs, Doomed(cap)) >= 0
  {
    if runs != [] {
      assert forall i :: 0 <= i < |runs[1..]| ==> runs[1..][i] == runs[i + 1];
      ChargesSplit(runs[1..], cap);
    }
  }

  lemma StepUnderCap(s: State, e: Event, cap: int)
    requires Possible(s, e) && Balanced(s, 0) && PositiveChecks(s) && UnderCap(s, cap) && cap > 0
    ensures UnderCap(Step(s, e, cap), cap) && PositiveChecks(Step(s, e, cap))
  {
    var u := Step(s, e, cap);
    SumStep(s, e, cap, Commitment(cap));
    SumStep(s, e, cap, Overreleased);
    if e.Begin? && e.estimate > 0 && s.counter + e.estimate <= cap {
      StepBalanced(s, e, cap, 0);
      ChargesSplit(u.runs, cap);
    }
  }

  /** Under every interleaving of additions, checks and subtractions by any number of runs,
      what accepted runs hold or have used exceeds the cap by no more than double releases. */
  lemma {:induction false} EveryRunUnderCap(s: State, events: seq<Event>, cap: int)
    requires Runs(s, events, cap) && Balanced(s, 0) && PositiveChecks(s) && UnderCap(s, cap) && cap > 0
    ensures UnderCap(After(s, events, cap), cap)
    decreases |events|
  {
    if events != [] {
      StepBalanced(s, events[0], cap, 0);
      StepUnderCap(s, events[0], cap);
      EveryRunUnderCap(Step(s, events[0], cap), events[1..], cap);
    }
  }

  /** A persist failure that gives back more than it reserved. */
  predicate GivesBackTwice(s: State, e: Event) {
    Possible(s, e) && e.Persist? && !e.persisted && s.runs[e.i].actual < s.runs[e.i].estimate
  }

  predicate NeverGivesBackTwice(s: State, events: seq<Event>, cap: int)
    requires Runs(s, events, cap)
    decreases |events|
  {
    events == [] || (!GivesBackTwice(s, events[0]) && NeverGivesBackTwice(Step(s, events[0], cap), events[1..], cap))
  }

  /** A day that starts at zero and never loses an audit row of an overestimated run stays
      under the cap. */
  lemma {:induction false} CapHolds(s: State, events: seq<Event>, cap: int)
    requires Runs(s, events, cap) && NeverGivesBackTwice(s, events, cap) && cap > 0
    requires Balanced(s, 0) && PositiveChecks(s) && UnderCap(s, cap) && Sum(s.runs, Overreleased) == 0
    ensures Sum(After(s, events, cap).runs, Commitment(cap)) <= cap
    decreases |events|
  {
    if events != [] {
      StepBalanced(s, events[0], cap, 0);
      StepUnderCap(s, events[0], cap);
      SumStep(s, events[0], cap, Overreleased);
      CapHolds(Step(s, events[0], cap), events[1..], cap);
    }
  }

  /** What the cap amounts to, exactly: a run is let in if and only if the commitments, with
      its own estimate and the additions about to be taken back, stay within the cap plus
      everything given back twice so far. */
  lemma EffectiveCap(s: State, estimate: int, cap: int)
    requires Balanced(s, 0) && PositiveChecks(s) && cap > 0 && estimate > 0
    ensures var n := |s.runs|;
      var u := Step(Step(s, Begin(estimate), cap), Decide(n), cap);
      u.runs[n].Holding? <==>
        Sum(s.runs, Commitment(cap)) + Sum(s.runs, Doomed(cap)) + estimate <= cap + Sum(s.runs, Overreleased)
  {
    ChargesSplit(s.runs, cap);
  }

  /** Reservation without interference, step by step, comes to what the meter's does. */
  lemma UndisturbedReserve(s: State, estimate: int, cap: int)
    ensures var n, u := |s.runs|, Step(s, Begin(estimate), cap);
      var end := if u.runs[n].Checking? then Step(u, Decide(n), cap) else u;
      var ok := estimate <= 0 || cap == 0 || s.counter + estimate <= cap;
      && end.runs == s.runs + [if ok then Holding(estimate) else Refused]
      && end.counter == s.counter + if ok then Max(estimate, 0) else 0
  {
  }

  /** So does the rest of a run that was let in. */
  lemma UndisturbedRun(s: State, i: nat, actual: int, persisted: bool, cap: int)
    requires i < |s.runs| && s.runs[i].Holding? && s.runs[i].estimate >= 0
    ensures var u := Step(Step(s, Reconcile(i, actual), cap), Persist(i, persisted), cap);
      var estimate := s.runs[i].estimate;
      && u.counter - s.counter ==
           (if persisted then Min(actual, estimate) - estimate else -Max(0, estimate - actual) - estimate)
      && u.runs == s.runs[i := if persisted then Recorded(estimate, actual) else Lost(estimate, actual)]
  {
  }

  // ---- The cap, exactly ----

  predicate NoneChecking(runs: seq<Phase>) {
    forall i :: 0 <= i < |runs| ==> !runs[i].Checking?
  }

  lemma {:induction false} NothingDoomed(runs: seq<Phase>, cap: int)
    requires NoneChecking(runs)
    ensures Sum(runs, Doomed(cap)) == 0
  {
    if runs != [] {
      assert forall i :: 0 <= i < |runs[1..]| ==> runs[1..][i] == runs[i + 1];
      NothingDoomed(runs[1..], cap);
    }
  }

  /** Letting the checks under way come to their end changes no commitment. */
  lemma {:induction false} ChecksEnd(s: State, n: nat, cap: int) returns (events: seq<Event>)
    requires n <= |s.runs| && NoneChecking(s.runs[n..]) && Balanced(s, 0) && PositiveChecks(s)
    ensures Runs(s, events, cap) && NeverGivesBackTwice(s, events, cap)
    ensures var u := After(s, events, cap);
      && NoneChecking(u.runs) && Balanced(u, 0) && PositiveChecks(u)
      && Sum(u.runs, Commitment(cap)) == Sum(s.runs, Commitment(cap))
      && Sum(u.runs, Overreleased) == Sum(s.runs, Overreleased)
    decreases n
  {
    events := [];
    if n > 0 {
      var i := n - 1;
      if s.runs[i].Checking? {
        var e := Decide(i);
        var u := Step(s, e, cap);
        StepBalanced(s, e, cap, 0);
        SumStep(s, e, cap, Commitment(cap));
        SumStep(s, e, cap, Overreleased);
        forall j | 0 <= j < |u.runs[i..]| ensures !u.runs[i..][j].Checking? {
          if j > 0 { assert u.runs[i..][j] == s.runs[n..][j - 1]; }
        }
        var rest := ChecksEnd(u, i, cap);
        events := [e] + rest;
        assert events[1..] == rest;
      } else {
        forall j | 0 <= j < |s.runs[i..]| ensures !s.runs[i..][j].Checking? {
          if j > 0 { assert s.runs[i..][j] == s.runs[n..][j - 1]; }
        }
        events := ChecksEnd(s, i, cap);
      }
    } else {
      assert s.runs[0..] == s.runs;
    }
  }

  /** A run that takes all the room there is. */
  lemma FillsUp(s: State, cap: int) returns (events: seq<Event>)
    requires Balanced(s, 0) && PositiveChecks(s) && NoneChecking(s.runs) && cap > 0
    requires Sum(s.runs, Commitment(cap)) <= cap && Sum(s.runs, Overreleased) > 0
    ensures Runs(s, events, cap) && NeverGivesBackTwice(s, events, cap)
    ensures Sum(After(s, events, cap).runs, Commitment(cap)) > cap
  {
    var e := cap + Sum(s.runs, Overreleased) - Sum(s.runs, Commitment(cap));
    var n := |s.runs|;
    NothingDoomed(s.runs, cap);
    ChargesSplit(s.runs, cap);
    var u := Step(s, Begin(e), cap);
    SumStep(s, Begin(e), cap, Commitment(cap));
    SumStep(u, Decide(n), cap, Commitment(cap));
    events := [Begin(e), Decide(n)];
    var v := Step(u, Decide(n), cap);
    assert u.runs[n] == Checking(e, cap) && v.runs[n] == Holding(e);
    assert events[1..] == [Decide(n)] && [Decide(n)][1..] == [];
    assert Runs(u, [Decide(n)], cap) && After(u, [Decide(n)], cap) == v;
  }

  /** From any state within the cap: no future without double releases exceeds it, if and only
      if nothing has been given back twice so far. */
  lemma CapExactly(s: State, cap: int)
    requires Balanced(s, 0) && PositiveChecks(s) && UnderCap(s, cap) && cap > 0
    ensures (forall events :: Runs(s, events, cap) && NeverGivesBackTwice(s, events, cap)
               ==> Sum(After(s, events, cap).runs, Commitment(cap)) <= cap)
      <==> Sum(s.runs, Overreleased) == 0
  {
    OverreleasedNotNegative(s.runs);
    if Sum(s.runs, Overreleased) == 0 {
      forall events | Runs(s, events, cap) && NeverGivesBackTwice(s, events, cap)
        ensures Sum(After(s, events, cap).runs, Commitment(cap)) <= cap
      {
        CapHolds(s, events, cap);
      }
    } else {
      assert s.runs[|s.runs|..] == [];
      var ends := ChecksEnd(s, |s.runs|, cap);
      var u := After(s, ends, cap);
      if Sum(u.runs, Commitment(cap)) <= cap {
        var more := FillsUp(u, cap);
        RunsConcat(s, ends, more, cap);
        QuietConcat(s, ends, more, cap);
      }
    }
  }

  lemma {:induction false} OverreleasedNotNegative(runs: seq<Phase>)
    ensures Sum(runs, Overreleased) >= 0
  {
    if runs != [] { OverreleasedNotNegative(runs[1..]); }
  }

  lemma {:induction false} QuietConcat(s: State, a: seq<Event>, b: seq<Event>, cap: int)
    requires Runs(s, a, cap) && Runs(After(s, a, cap), b, cap) && Runs(s, a + b, cap)
    requires NeverGivesBackTwice(s, a, cap) && NeverGivesBackTwice(After(s, a, cap), b, cap)
    ensures NeverGivesBackTwice(s, a + b, cap)
    decreases |a|
  {
    if a == [] {
      assert a + b == b;
    } else {
      assert (a + b)[1..] == a[1..] + b;
      QuietConcat(Step(s, a[0], cap), a[1..], b, cap);
    }
  }

  /** One lost audit row is enough to break it, at any cap: a run that reserves the whole
      cap, uses nothing and is not recorded leaves room for two more such runs. */
  lemma LostRowBreaksCap(cap: int)
    requires cap > 0
    ensures var s := State(0, []);
      var events := [Begin(cap), Decide(0), Reconcile(0, 0), Persist(0, false)]
        + [Begin(cap), Decide(1), Begin(cap), Decide(2)];
      Runs(s, events, cap) && Sum(After(s, events, cap).runs, Commitment(cap)) == 2 * cap &&
        After(s, events, cap).counter == cap
  {
    LosesRow(cap);
    FillsTwice(cap);
    RunsConcat(State(0, []), [Begin(cap), Decide(0), Reconcile(0, 0), Persist(0, false)],
      [Begin(cap), Decide(1), Begin(cap), Decide(2)], cap);
    var runs := [Lost(cap, 0), Holding(cap), Holding(cap)];
    SumAppend([Lost(cap, 0), Holding(cap)], Commitment(cap), Holding(cap));
    SumAppend([Lost(cap, 0)], Commitment(cap), Holding(cap));
    SumAppend([], Commitment(cap), Lost(cap, 0));
    assert [] + [Lost(cap, 0)] == [Lost(cap, 0)] && [Lost(cap, 0)] + [Holding(cap)] == [Lost(cap, 0), Holding(cap)];
    assert [Lost(cap, 0), Holding(cap)] + [Holding(cap)] == runs;
    assert Sum(runs, Commitment(cap)) == 2 * cap;
  }

  lemma LosesRow(cap: int)
    requires cap > 0
    ensures var events := [Begin(cap), Decide(0), Reconcile(0, 0), Persist(0, false)];
      Runs(State(0, []), events, cap) && After(State(0, []), events, cap) == State(-cap, [Lost(cap, 0)])
  {
    var events := [Begin(cap), Decide(0), Reconcile(0, 0), Persist(0, false)];
    var states :=
      [State(cap, [Checking(cap, cap)]), State(cap, [Holding(cap)]), State(0, [Reconciled(cap, 0)]),
        State(-cap, [Lost(cap, 0)])];
    Unfold(State(0, []), events, states, cap);
  }

  lemma FillsTwice(cap: int)
    requires cap > 0
    ensures var events := [Begin(cap), Decide(1), Begin(cap), Decide(2)];
      var s := State(-cap, [Lost(cap, 0)]);
      Runs(s, events, cap) && After(s, events, cap) == State(cap, [Lost(cap, 0), Holding(cap), Holding(cap)])
  {
    var lost := Lost(cap, 0);
    var events := [Begin(cap), Decide(1), Begin(cap), Decide(2)];
    var states := [State(0, [lost, Checking(cap, 0)]), State(0, [lost, Holding(cap)]),
                   State(cap, [lost, Holding(cap), Checking(cap, cap)]),
                     State(cap, [lost, Holding(cap), Holding(cap)])];
    Unfold(State(-cap, [lost]), events, states, cap);
  }

  lemma {:induction false} Unfold(s: State, events: seq<Event>, states: seq<State>, cap: int)
    requires |states| == |events| && events != []
    requires Possible(s, events[0]) && states[0] == Step(s, events[0], cap)
    requires forall i ::
      0 < i < |events| ==> Possible(states[i - 1], events[i]) && states[i] == Step(states[i - 1], events[i], cap)
    ensures Runs(s, events, cap) && After(s, events, cap) == states[|states| - 1]
    decreases |events|
  {
    if |events| > 1 {
      assert events[1..][0] == events[1] && states[1..][0] == states[1];
      forall i | 0 < i < |events| - 1
        ensures Possible(states[1..][i - 1], events[1..][i])
        ensures states[1..][i] == Step(states[1..][i - 1], events[1..][i], cap)
      {
        assert events[1..][i] == events[i + 1] && states[1..][i] == states[i + 1] && states[1..][i - 1] == states[i];
      }
      Unfold(states[0], events[1..], states[1..], cap);
    } else {
      assert events[1..] == [];
    }
  }

  lemma {:induction false} RunsConcat(s: State, a: seq<Event>, b: seq<Event>, cap: int)
    requires Runs(s, a, cap) && Runs(After(s, a, cap), b, cap)
    ensures Runs(s, a + b, cap) && After(s, a + b, cap) == After(After(s, a, cap), b, cap)
    decreases |a|
  {
    if a == [] {
      assert a + b == b;
    } else {
      assert (a + b)[1..] == a[1..] + b;
      RunsConcat(Step(s, a[0], cap), a[1..], b, cap);
    }
  }

  // ---- The fallback ----

  /** Spend recorded today and the estimates of admitted calls not yet recorded. */
  datatype Ledger = Ledger(recorded: int, flying: seq<int>)

  datatype Move = Admit(estimate: int) | Finish(i: nat, actual: int, persisted: bool)

  predicate Admissible(l: Ledger, estimate: int, cap: int) {
    estimate <= 0 || l.recorded + estimate <= cap
  }

  /** At most `width` calls at once, none above `most`, none costing more than estimated. */
  predicate Legal(l: Ledger, m: Move, cap: int, width: nat, most: nat) {
    match m
    case Admit(estimate) => Admissible(l, estimate, cap) && estimate <= most && |l.flying| < width
    case Finish(i, actual, _) => i < |l.flying| && actual <= l.flying[i]
  }

  function Moved(l: Ledger, m: Move): Ledger
    requires m.Finish? ==> m.i < |l.flying|
  {
    match m
    case Admit(estimate) => l.(flying := l.flying + [estimate])
    case Finish(i, actual, persisted) =>
      Ledger(l.recorded + if persisted then actual else 0, l.flying[..i] + l.flying[i + 1..])
  }

  /** The positive estimates among these. */
  function Total(xs: seq<int>): nat {
    if xs == [] then 0 else Reserved(xs[0]) + Total(xs[1..])
  }

  lemma {:induction false} TotalConcat(xs: seq<int>, ys: seq<int>)
    ensures Total(xs + ys) == Total(xs) + Total(ys)
  {
    if xs == [] {
      assert xs + ys == ys;
    } else {
      assert (xs + ys)[1..] == xs[1..] + ys;
      TotalConcat(xs[1..], ys);
    }
  }

  lemma {:induction false} TotalBound(xs: seq<int>, width: nat, most: nat)
    requires |xs| <= width && forall x :: x in xs ==> x <= most
    ensures Total(xs) <= width * most
  {
    if xs != [] {
      assert xs[0] in xs && forall x :: x in xs[1..] ==> x in xs;
      TotalBound(xs[1..], width - 1, most);
      assert width * most == (width - 1) * most + most;
    }
  }

  predicate WithinBound(l: Ledger, cap: int, width: nat, most: nat)
    requires width > 0
  {
    && (forall x :: x in l.flying ==> x <= most)
    && l.recorded + Total(l.flying) <= cap + (width - 1) * most
  }

  lemma MoveWithinBound(l: Ledger, m: Move, cap: int, width: nat, most: nat)
    requires width > 0 && WithinBound(l, cap, width, most) && Legal(l, m, cap, width, most)
    ensures WithinBound(Moved(l, m), cap, width, most)
  {
    match m
    case Admit(estimate) =>
      TotalConcat(l.flying, [estimate]);
      assert Total([estimate]) == Reserved(estimate);
      TotalBound(l.flying, width - 1, most);
    case Finish(i, actual, persisted) =>
      assert l.flying == l.flying[..i] + ([l.flying[i]] + l.flying[i + 1..]);
      TotalConcat(l.flying[..i], [l.flying[i]] + l.flying[i + 1..]);
      TotalConcat([l.flying[i]], l.flying[i + 1..]);
      TotalConcat(l.flying[..i], l.flying[i + 1..]);
      var rest := l.flying[..i] + l.flying[i + 1..];
      forall x | x in rest ensures x <= most {
        assert x in l.flying;
      }
  }

  function Ended(l: Ledger, moves: seq<Move>, cap: int, width: nat, most: nat): Ledger
    requires AllLegal(l, moves, cap, width, most)
    decreases |moves|
  {
    if moves == [] then l else Ended(Moved(l, moves[0]), moves[1..], cap, width, most)
  }

  predicate AllLegal(l: Ledger, moves: seq<Move>, cap: int, width: nat, most: nat)
    decreases |moves|
  {
    moves == [] || (Legal(l, moves[0], cap, width, most) && AllLegal(Moved(l, moves[0]), moves[1..], cap, width, most))
  }

  /** With at most `width` calls in flight recorded spend never exceeds the cap by more than
      one estimate for each further call; sequential calls never exceed it at all. */
  lemma {:induction false} FallbackBound(l: Ledger, moves: seq<Move>, cap: int, width: nat, most: nat)
    requires width > 0 && AllLegal(l, moves, cap, width, most) && WithinBound(l, cap, width, most)
    ensures Ended(l, moves, cap, width, most).recorded <= cap + (width - 1) * most
    ensures width == 1 ==> Ended(l, moves, cap, width, most).recorded <= cap
    decreases |moves|
  {
    if moves != [] {
      MoveWithinBound(l, moves[0], cap, width, most);
      FallbackBound(Moved(l, moves[0]), moves[1..], cap, width, most);
    }
  }

  /** No recorded run has a negative cost. */
  predicate Charged(moves: seq<Move>) {
    forall m :: m in moves && m.Finish? ==> m.actual >= 0
  }

  /** Then no estimate above the cap is ever let in. */
  lemma {:induction false} UnderCapEach(l: Ledger, moves: seq<Move>, cap: nat, width: nat, most: nat)
    requires AllLegal(l, moves, cap, width, most) && Charged(moves) && l.recorded >= 0
    ensures AllLegal(l, moves, cap, width, Min(most, cap))
    ensures Ended(l, moves, cap, width, Min(most, cap)) == Ended(l, moves, cap, width, most)
    decreases |moves|
  {
    if moves != [] {
      assert moves[0] in moves && forall m :: m in moves[1..] ==> m in moves;
      UnderCapEach(Moved(l, moves[0]), moves[1..], cap, width, most);
    }
  }

  function Copies(x: int, n: nat): seq<int> {
    if n == 0 then [] else [x] + Copies(x, n - 1)
  }

  lemma {:induction false} CopiesSnoc(x: int, n: nat)
    ensures Copies(x, n) + [x] == Copies(x, n + 1) && |Copies(x, n)| == n
  {
    if n > 0 {
      CopiesSnoc(x, n - 1);
      Sequences.ConsConcat(x, Copies(x, n - 1), [x]);
    }
  }

  /** One call after another, a unit each. */
  lemma {:induction false} FillUp(r: nat, n: nat, cap: int, width: nat, most: nat) returns (moves: seq<Move>)
    requires r + n <= cap && width > 0 && most > 0
    ensures AllLegal(Ledger(r, []), moves, cap, width, most) && Charged(moves)
    ensures Ended(Ledger(r, []), moves, cap, width, most) == Ledger(r + n, [])
    decreases n
  {
    moves := [];
    if n > 0 {
      var rest := FillUp(r + 1, n - 1, cap, width, most);
      moves := [Admit(1)] + ([Finish(0, 1, true)] + rest);
      assert Moved(Ledger(r, []), Admit(1)) == Ledger(r, [1]);
      assert Moved(Ledger(r, [1]), Finish(0, 1, true)) == Ledger(r + 1, []);
      MoveFirst(Ledger(r, [1]), Finish(0, 1, true), rest, cap, width, most);
      MoveFirst(Ledger(r, []), Admit(1), [Finish(0, 1, true)] + rest, cap, width, most);
    }
  }

  lemma MoveFirst(l: Ledger, m: Move, rest: seq<Move>, cap: int, width: nat, most: nat)
    requires Legal(l, m, cap, width, most) && AllLegal(Moved(l, m), rest, cap, width, most)
    ensures AllLegal(l, [m] + rest, cap, width, most)
    ensures Ended(l, [m] + rest, cap, width, most) == Ended(Moved(l, m), rest, cap, width, most)
  {
    assert ([m] + rest)[1..] == rest;
  }

  /** As many calls as fit side by side, all let in before the first is recorded. */
  lemma {:induction false} AdmitAll(r: int, x: nat, k: nat, n: nat, cap: int, width: nat, most: nat)
    returns (moves: seq<Move>)
    requires r + x <= cap && x <= most && k + n <= width
    ensures AllLegal(Ledger(r, Copies(x, k)), moves, cap, width, most) && Charged(moves)
    ensures Ended(Ledger(r, Copies(x, k)), moves, cap, width, most) == Ledger(r, Copies(x, k + n))
    decreases n
  {
    moves := [];
    if n > 0 {
      CopiesSnoc(x, k);
      var rest := AdmitAll(r, x, k + 1, n - 1, cap, width, most);
      moves := [Admit(x)] + rest;
      MoveFirst(Ledger(r, Copies(x, k)), Admit(x), rest, cap, width, most);
    }
  }

  lemma {:induction false} FinishAll(r: int, x: nat, n: nat, cap: int, width: nat, most: nat)
    returns (moves: seq<Move>)
    ensures AllLegal(Ledger(r, Copies(x, n)), moves, cap, width, most) && Charged(moves)
    ensures Ended(Ledger(r, Copies(x, n)), moves, cap, width, most) == Ledger(r + Total(Copies(x, n)), [])
    decreases n
  {
    moves := [];
    if n > 0 {
      var rest := FinishAll(r + x, x, n - 1, cap, width, most);
      moves := FinishThen(r, x, n, rest, cap, width, most);
      TotalFirst(x, n);
    }
  }

  lemma FinishThen(r: int, x: nat, n: nat, rest: seq<Move>, cap: int, width: nat, most: nat) returns (moves: seq<Move>)
    requires n > 0 && AllLegal(Ledger(r + x, Copies(x, n - 1)), rest, cap, width, most) && Charged(rest)
    ensures AllLegal(Ledger(r, Copies(x, n)), moves, cap, width, most) && Charged(moves)
    ensures Ended(Ledger(r, Copies(x, n)), moves, cap, width, most)
      == Ended(Ledger(r + x, Copies(x, n - 1)), rest, cap, width, most)
  {
    moves := [Finish(0, x, true)] + rest;
    FinishFirst(r, x, n, cap, width, most);
    MoveFirst(Ledger(r, Copies(x, n)), Finish(0, x, true), rest, cap, width, most);
  }

  lemma TotalFirst(x: nat, n: nat)
    requires n > 0
    ensures Total(Copies(x, n)) == x + Total(Copies(x, n - 1))
  {
    assert Copies(x, n)[1..] == Copies(x, n - 1);
  }

  lemma {:induction false} TotalCopies(x: nat, n: nat)
    requires n > 0
    ensures Total(Copies(x, n)) == x + (n - 1) * x
  {
    TotalFirst(x, n);
    if n > 1 {
      TotalCopies(x, n - 1);
      assert (n - 1) * x == x + (n - 2) * x;
    }
  }

  lemma FinishFirst(r: int, x: nat, n: nat, cap: int, width: nat, most: nat)
    requires n > 0
    ensures Legal(Ledger(r, Copies(x, n)), Finish(0, x, true), cap, width, most)
    ensures Moved(Ledger(r, Copies(x, n)), Finish(0, x, true)) == Ledger(r + x, Copies(x, n - 1))
  {
    assert Copies(x, n)[..0] + Copies(x, n)[1..] == Copies(x, n - 1);
  }

  /** The bound is met, for every cap and every largest estimate: sequential calls fill the
      ledger up to one estimate below the cap, and then `width` calls are let in before the
      first of them is recorded. */
  lemma FallbackBoundMet(cap: nat, width: nat, most: nat) returns (moves: seq<Move>)
    requires width > 0 && most > 0
    ensures AllLegal(Ledger(0, []), moves, cap, width, most) && Charged(moves)
    ensures Ended(Ledger(0, []), moves, cap, width, most).recorded == cap + (width - 1) * Min(most, cap)
  {
    var start, x := Ledger(0, []), Min(most, cap);
    var first := FillUp(0, cap - x, cap, width, most);
    var second := SideBySide(cap - x, x, cap, width, most);
    MovesConcat(start, first, second, cap, width, most);
    moves := first + second;
    TotalCopies(x, width);
  }

  lemma SideBySide(r: nat, x: nat, cap: nat, width: nat, most: nat) returns (moves: seq<Move>)
    requires r + x <= cap && x <= most
    ensures AllLegal(Ledger(r, []), moves, cap, width, most) && Charged(moves)
    ensures Ended(Ledger(r, []), moves, cap, width, most) == Ledger(r + Total(Copies(x, width)), [])
  {
    var admits := AdmitAll(r, x, 0, width, cap, width, most);
    var finishes := FinishAll(r, x, width, cap, width, most);
    MovesConcat(Ledger(r, []), admits, finishes, cap, width, most);
    moves := admits + finishes;
  }

  /** What the fallback bounds, exactly: with at most `width` calls at once, none estimated
      above `most`, the least upper bound of the recorded spend is the cap and, for each
      further call, one estimate that fits under the cap. */
  lemma FallbackBoundExact(cap: nat, width: nat, most: nat, bound: int)
    requires width > 0 && most > 0
    ensures
      (forall moves :: AllLegal(Ledger(0, []), moves, cap, width, most) && Charged(moves) ==>
        Ended(Ledger(0, []), moves, cap, width, most).recorded <= bound)
      <==> cap + (width - 1) * Min(most, cap) <= bound
  {
    var met := FallbackBoundMet(cap, width, most);
    forall moves | AllLegal(Ledger(0, []), moves, cap, width, most) && Charged(moves)
      ensures Ended(Ledger(0, []), moves, cap, width, most).recorded <= cap + (width - 1) * Min(most, cap)
    {
      NeverBeyond(moves, cap, width, most);
    }
  }

  lemma NeverBeyond(moves: seq<Move>, cap: nat, width: nat, most: nat)
    requires width > 0 && AllLegal(Ledger(0, []), moves, cap, width, most) && Charged(moves)
    ensures Ended(Ledger(0, []), moves, cap, width, most).recorded <= cap + (width - 1) * Min(most, cap)
  {
    UnderCapEach(Ledger(0, []), moves, cap, width, most);
    assert (width - 1) * Min(most, cap) >= 0;
    FallbackBound(Ledger(0, []), moves, cap, width, Min(most, cap));
  }

  lemma {:induction false} MovesConcat(l: Ledger, a: seq<Move>, b: seq<Move>, cap: int, width: nat, most: nat)
    requires AllLegal(l, a, cap, width, most) && AllLegal(Ended(l, a, cap, width, most), b, cap, width, most)
    ensures AllLegal(l, a + b, cap, width, most)
    ensures Ended(l, a + b, cap, width, most) == Ended(Ended(l, a, cap, width, most), b, cap, width, most)
    decreases |a|
  {
    if a == [] {
      assert a + b == b;
    } else {
      assert (a + b)[1..] == a[1..] + b;
      MovesConcat(Moved(l, a[0]), a[1..], b, cap, width, most);
    }
  }
}
