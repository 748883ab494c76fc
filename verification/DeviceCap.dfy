/** The device cap of a tenant over runs of registrations: one after another, and side by side,
    where the cap is checked before the lock is taken. */
module DeviceCap {
  import opened Options
  import opened Sequences
  import opened AgentTokens
  import opened TokenStore

  // ---- One after another ----

  /** Requests answered in turn, with the devices before and after each. */
  predicate Served(states: seq<Devices>, requests: seq<Request>, replies: seq<Reply>) {
    && |states| == |requests| + 1 && |replies| == |requests|
    && forall i :: 0 <= i < |requests| ==> Enrolls(states[i], states[i + 1], requests[i], replies[i])
  }

  predicate CapOf(requests: seq<Request>, tenant: string, cap: nat) {
    forall i :: 0 <= i < |requests| && requests[i].tenant == tenant ==> requests[i].maxDevices == cap
  }

  /** Devices of other tenants do not matter to the answer. */
  lemma OthersDoNotCount(a: Devices, a': Devices, b: Devices, b': Devices, r: Request, x: Reply, y: Reply)
    requires Enrolls(a, a', r, x) && Enrolls(b, b', r, y)
    requires forall d :: d in a && a[d].tenant == r.tenant <==> d in b && b[d].tenant == r.tenant
    ensures x.LimitReached? <==> y.LimitReached?
  {
    assert TenantDevices(a, r.tenant) == TenantDevices(b, r.tenant);
  }

  /** A new device counts once, for its own tenant. */
  lemma EnrolledCounts(before: Devices, after: Devices, r: Request, reply: Reply, tenant: string)
    requires Enrolls(before, after, r, reply)
    ensures TenantDevices(after, tenant) ==
      TenantDevices(before, tenant) + if reply.Registered? && r.tenant == tenant then {reply.id} else {}
    ensures |TenantDevices(after, tenant)| ==
      |TenantDevices(before, tenant)| + if reply.Registered? && r.tenant == tenant then 1 else 0
  {
    SettledCounts(before, after, r, reply, tenant);
  }

  lemma SettledCounts(before: Devices, after: Devices, r: Request, reply: Reply, tenant: string)
    requires Settles(before, after, r, reply) || (after == before && !reply.Registered?)
    ensures TenantDevices(after, tenant) ==
      TenantDevices(before, tenant) + if reply.Registered? && r.tenant == tenant then {reply.id} else {}
    ensures |TenantDevices(after, tenant)| ==
      |TenantDevices(before, tenant)| + if reply.Registered? && r.tenant == tenant then 1 else 0
  {
    if reply.Registered? { assert reply.id !in TenantDevices(before, tenant); }
  }

  /** The first device of a tenant is never refused for the limit, whatever the cap. */
  lemma FirstDeviceEnrolls(before: Devices, after: Devices, r: Request, reply: Reply)
    requires Enrolls(before, after, r, reply) && |r.token| >= 32
    requires forall d :: d in before ==> before[d].tenant != r.tenant
    ensures reply == Registered(r.newId)
  {
    assert TenantDevices(before, r.tenant) == {};
  }

  /** Served one after another, a tenant within its cap stays within it. */
  lemma {:induction false} CapKept(states: seq<Devices>, requests: seq<Request>, replies: seq<Reply>, tenant: string,
                                   cap: nat, i: nat)
    requires Served(states, requests, replies) && CapOf(requests, tenant, cap) && i < |states|
    requires cap > 0 && |TenantDevices(states[0], tenant)| <= cap
    ensures |TenantDevices(states[i], tenant)| <= cap
  {
    if i > 0 {
      CapKept(states, requests, replies, tenant, cap, i - 1);
      EnrolledCounts(states[i - 1], states[i], requests[i - 1], replies[i - 1], tenant);
    }
  }

  /** The tenant's devices are the same, last-seen times included. */
  predicate SameFor(a: Devices, b: Devices, tenant: string) {
    && TenantDevices(a, tenant) == TenantDevices(b, tenant)
    && forall d :: d in TenantDevices(a, tenant) ==> a[d] == b[d]
  }

  /** A tenant at its cap is frozen: from then on no request of it is let in, not even one that
      proves possession for a device it has, so no token of the tenant is ever rotated. */
  lemma {:induction false} FullTenantFrozen(states: seq<Devices>, requests: seq<Request>, replies: seq<Reply>,
                                            tenant: string, cap: nat, i: nat)
    requires Served(states, requests, replies) && CapOf(requests, tenant, cap) && i < |states|
    requires 0 < cap <= |TenantDevices(states[0], tenant)|
    ensures SameFor(states[0], states[i], tenant)
    ensures i < |requests| && requests[i].tenant == tenant ==>
      replies[i] == if |requests[i].token| < 32 then TooShort else LimitReached
  {
    if i > 0 {
      FullTenantFrozen(states, requests, replies, tenant, cap, i - 1);
      EnrolledCounts(states[i - 1], states[i], requests[i - 1], replies[i - 1], tenant);
      OthersKept(states[i - 1], states[i], requests[i - 1], replies[i - 1], tenant);
    }
    if i < |requests| { assert Enrolls(states[i], states[i + 1], requests[i], replies[i]); }
  }

  lemma OthersKept(before: Devices, after: Devices, r: Request, reply: Reply, tenant: string)
    requires Enrolls(before, after, r, reply) && (r.tenant == tenant ==> !Succeeds(reply))
    ensures SameFor(before, after, tenant)
  {
  }

  // ---- One id for each machine ----

  predicate SameMachine(a: Device, b: Device) {
    a.tenant == b.tenant && a.host == b.host && a.mac == b.mac
  }

  predicate Distinct(devices: Devices) {
    forall d, e :: d in devices && e in devices && SameMachine(devices[d], devices[e]) ==> d == e
  }

  lemma {:induction false} ServedDistinct(states: seq<Devices>, requests: seq<Request>, replies: seq<Reply>, i: nat)
    requires Served(states, requests, replies) && Distinct(states[0]) && i < |states|
    ensures Distinct(states[i])
  {
    if i > 0 {
      ServedDistinct(states, requests, replies, i - 1);
      assert Enrolls(states[i - 1], states[i], requests[i - 1], replies[i - 1]);
    }
  }

  lemma {:induction false} DevicesStay(states: seq<Devices>, requests: seq<Request>, replies: seq<Reply>, i: nat,
                                       j: nat, d: string)
    requires Served(states, requests, replies) && i <= j < |states| && d in states[i]
    ensures d in states[j] && SameMachine(states[i][d], states[j][d])
  {
    if i < j {
      DevicesStay(states, requests, replies, i, j - 1, d);
      assert Enrolls(states[j - 1], states[j], requests[j - 1], replies[j - 1]);
    }
  }

  /** Whatever is registered in between, two requests that succeed are given one id exactly when
      they name the same tenant, host and address. */
  lemma OneIdEach(states: seq<Devices>, requests: seq<Request>, replies: seq<Reply>, i: nat, j: nat)
    requires Served(states, requests, replies) && Distinct(states[0]) && i < j < |requests|
    requires Succeeds(replies[i]) && Succeeds(replies[j])
    ensures replies[i].id == replies[j].id <==>
      requests[i].tenant == requests[j].tenant && requests[i].host == requests[j].host
      && requests[i].mac == requests[j].mac
  {
    var d := replies[i].id;
    assert Enrolls(states[i], states[i + 1], requests[i], replies[i]);
    assert d in states[i + 1] && IsFor(states[i + 1][d], requests[i]);
    DevicesStay(states, requests, replies, i + 1, j, d);
    ServedDistinct(states, requests, replies, j);
    assert Enrolls(states[j], states[j + 1], requests[j], replies[j]);
  }

  // ---- Side by side ----

  /** `past` holds the requests that have passed the check of the cap and not yet taken the lock. */
  datatype State = State(devices: Devices, past: map<int, Request>)

  datatype Event = Check(n: int, r: Request) | Settle(n: int, reply: Reply)

  predicate Steps(s: State, e: Event, u: State) {
    match e
    case Check(n, r) => n !in s.past && u == s.(past := if AtCap(s.devices, r) then s.past else s.past[n := r])
    case Settle(n, reply) =>
      n in s.past && u.past == s.past - {n} && Settles(s.devices, u.devices, s.past[n], reply)
  }

  function Waiting(s: State, tenant: string): set<int> {
    set n | n in s.past && s.past[n].tenant == tenant
  }

  /** A run from the empty table under a fixed cap of the tenant, with at most `width` of its
      requests between check and lock at once. */
  predicate Run(states: seq<State>, events: seq<Event>, tenant: string, cap: nat, width: nat) {
    && |states| == |events| + 1 && states[0] == State(map[], map[])
    && (forall i :: 0 <= i < |events| ==> Steps(states[i], events[i], states[i + 1]))
    && (forall i :: 0 <= i < |events| && events[i].Check? && events[i].r.tenant == tenant ==>
          events[i].r.maxDevices == cap)
    && forall i :: 0 <= i < |states| ==> |Waiting(states[i], tenant)| <= width
  }

  lemma CheckCounts(s: State, e: Event, u: State, tenant: string, cap: nat, width: nat)
    requires Steps(s, e, u) && e.Check? && cap > 0 && |Waiting(u, tenant)| <= width
    requires e.r.tenant == tenant ==> e.r.maxDevices == cap
    requires |TenantDevices(s.devices, tenant)| + |Waiting(s, tenant)| <= cap - 1 + width
    ensures |TenantDevices(u.devices, tenant)| + |Waiting(u, tenant)| <= cap - 1 + width
  {
    if e.r.tenant != tenant { assert Waiting(u, tenant) == Waiting(s, tenant); }
  }

  lemma SettleCounts(s: State, e: Event, u: State, tenant: string)
    requires Steps(s, e, u) && e.Settle?
    ensures |TenantDevices(u.devices, tenant)| + |Waiting(u, tenant)| <=
      |TenantDevices(s.devices, tenant)| + |Waiting(s, tenant)|
  {
    SettledCounts(s.devices, u.devices, s.past[e.n], e.reply, tenant);
    assert Waiting(u, tenant) == Waiting(s, tenant) - {e.n};
  }

  /** With so many requests at once, at most one further device each. */
  lemma {:induction false} RaceBound(states: seq<State>, events: seq<Event>, tenant: string, cap: nat, width: nat,
                                     i: nat)
    requires Run(states, events, tenant, cap, width) && cap > 0 && width > 0 && i < |states|
    ensures |TenantDevices(states[i].devices, tenant)| + |Waiting(states[i], tenant)| <= cap - 1 + width
  {
    if i == 0 {
      assert TenantDevices(states[0].devices, tenant) == {} && Waiting(states[0], tenant) == {};
    } else {
      RaceBound(states, events, tenant, cap, width, i - 1);
      if events[i - 1].Check? {
        CheckCounts(states[i - 1], events[i - 1], states[i], tenant, cap, width);
      } else {
        SettleCounts(states[i - 1], events[i - 1], states[i], tenant);
      }
    }
  }

  // ---- A run that gets there ----

  function Name(k: nat): string {
    seq(k, _ => 'x')
  }

  /** The k-th machine of the tenant asks. */
  function Ask(tenant: string, k: nat, cap: nat): Request {
    Request(tenant, Name(k), "", Name(32), Name(k), cap, 0)
  }

  /** The first k machines enrolled. */
  function Fleet(tenant: string, k: nat): Devices {
    if k == 0 then map[] else Fleet(tenant, k - 1)[Name(k - 1) := Device(tenant, Name(k - 1), "", Some(0), false)]
  }

  function Asking(tenant: string, cap: nat, first: nat, end: nat): map<int, Request>
    requires first <= end
    decreases end - first
  {
    if first == end then map[] else Asking(tenant, cap, first + 1, end)[first as int := Ask(tenant, first, cap)]
  }

  lemma {:induction false} FleetRows(tenant: string, k: nat)
    ensures forall d :: d in Fleet(tenant, k) ==> |d| < k && Fleet(tenant, k)[d].tenant == tenant
    ensures forall d :: d in Fleet(tenant, k) ==> Fleet(tenant, k)[d].host == d
  {
    if k > 0 { FleetRows(tenant, k - 1); }
  }

  lemma {:induction false} FleetSize(tenant: string, k: nat)
    ensures |TenantDevices(Fleet(tenant, k), tenant)| == k
  {
    if k == 0 {
      assert TenantDevices(map[], tenant) == {};
    } else {
      FleetSize(tenant, k - 1);
      FleetRows(tenant, k - 1);
      OneMore(Fleet(tenant, k - 1), Name(k - 1), tenant);
    }
  }

  lemma OneMore(devices: Devices, name: string, tenant: string)
    requires name !in devices
    ensures |TenantDevices(devices[name := Device(tenant, name, "", Some(0), false)], tenant)| ==
      |TenantDevices(devices, tenant)| + 1
  {
    var after := devices[name := Device(tenant, name, "", Some(0), false)];
    assert TenantDevices(after, tenant) == TenantDevices(devices, tenant) + {name};
  }

  lemma {:induction false} AskingSize(tenant: string, cap: nat, first: nat, end: nat)
    requires first <= end
    ensures forall n: int :: n in Asking(tenant, cap, first, end) <==> first <= n < end
    ensures forall n: int :: first <= n < end ==> Asking(tenant, cap, first, end)[n] == Ask(tenant, n, cap)
    ensures |Waiting(State(map[], Asking(tenant, cap, first, end)), tenant)| == end - first
    decreases end - first
  {
    var s := State(map[], Asking(tenant, cap, first, end));
    if first == end {
      assert Waiting(s, tenant) == {};
    } else {
      AskingSize(tenant, cap, first + 1, end);
      var t := State(map[], Asking(tenant, cap, first + 1, end));
      assert first !in Waiting(t, tenant);
      assert Waiting(s, tenant) == Waiting(t, tenant) + {first as int};
    }
  }

  lemma WaitingOnly(devices: Devices, past: map<int, Request>, tenant: string)
    ensures Waiting(State(devices, past), tenant) == Waiting(State(map[], past), tenant)
  {
  }

  lemma CheckPasses(tenant: string, cap: nat, k: nat, first: nat, end: nat)
    requires k < cap && first <= end
    ensures Steps(State(Fleet(tenant, k), Asking(tenant, cap, first, end)), Check(end, Ask(tenant, end, cap)),
                  State(Fleet(tenant, k), Asking(tenant, cap, first, end + 1)))
  {
    FleetSize(tenant, k);
    AskingSize(tenant, cap, first, end);
    AskingSize(tenant, cap, first, end + 1);
    var longer := Asking(tenant, cap, first, end + 1);
    var more := Asking(tenant, cap, first, end)[end := Ask(tenant, end, cap)];
    assert forall n: int :: n in longer <==> n in more;
    assert forall n: int :: n in longer ==> longer[n] == more[n];
    assert longer == more;
  }

  lemma SettleEnrolls(tenant: string, cap: nat, k: nat, end: nat)
    requires k < end
    ensures Steps(State(Fleet(tenant, k), Asking(tenant, cap, k, end)), Settle(k, Registered(Name(k))),
                  State(Fleet(tenant, k + 1), Asking(tenant, cap, k + 1, end)))
  {
    FleetRows(tenant, k);
    AskingSize(tenant, cap, k, end);
    AskingSize(tenant, cap, k + 1, end);
    assert Asking(tenant, cap, k + 1, end) == Asking(tenant, cap, k, end) - {k as int};
    assert |Name(k)| == k;
  }

  lemma Extend(states: seq<State>, events: seq<Event>, tenant: string, cap: nat, width: nat, e: Event, u: State)
    requires Run(states, events, tenant, cap, width) && Steps(Last(states), e, u)
    requires (e.Check? ==> e.r.maxDevices == cap) && |Waiting(u, tenant)| <= width
    ensures Run(states + [u], events + [e], tenant, cap, width)
  {
    var more, longer := states + [u], events + [e];
    forall i | 0 <= i < |longer| ensures Steps(more[i], longer[i], more[i + 1]) {
      if i < |events| { assert more[i] == states[i] && more[i + 1] == states[i + 1] && longer[i] == events[i]; }
    }
  }

  /** Side by side: so many checks passed, none settled. */
  lemma {:induction false} AllCheck(tenant: string, cap: nat, width: nat, k: nat, n: nat)
    returns (states: seq<State>, events: seq<Event>)
    requires k < cap && n <= width && width > 0
    ensures Run(states, events, tenant, cap, width)
    ensures Last(states) == State(Fleet(tenant, k), Asking(tenant, cap, k, k + n))
    decreases k, n
  {
    if n > 0 {
      states, events := AllCheck(tenant, cap, width, k, n - 1);
      var u := State(Fleet(tenant, k), Asking(tenant, cap, k, k + n));
      CheckPasses(tenant, cap, k, k, k + n - 1);
      AskingSize(tenant, cap, k, k + n);
      WaitingOnly(u.devices, u.past, tenant);
      var e := Check(k + n - 1, Ask(tenant, k + n - 1, cap));
      Extend(states, events, tenant, cap, width, e, u);
      states, events := states + [u], events + [e];
    } else if k > 0 {
      states, events := AllCheck(tenant, cap, width, k - 1, 1);
      states, events := OneSettles(states, events, tenant, cap, width, k - 1, k);
    } else {
      states, events := [State(map[], map[])], [];
      assert Waiting(states[0], tenant) == {};
    }
  }

  lemma OneSettles(before: seq<State>, past: seq<Event>, tenant: string, cap: nat, width: nat, k: nat, end: nat)
    returns (states: seq<State>, events: seq<Event>)
    requires Run(before, past, tenant, cap, width) && k < end
    requires Last(before) == State(Fleet(tenant, k), Asking(tenant, cap, k, end))
    ensures Run(states, events, tenant, cap, width)
    ensures Last(states) == State(Fleet(tenant, k + 1), Asking(tenant, cap, k + 1, end))
  {
    var u := State(Fleet(tenant, k + 1), Asking(tenant, cap, k + 1, end));
    SettleEnrolls(tenant, cap, k, end);
    AskingSize(tenant, cap, k, end);
    AskingSize(tenant, cap, k + 1, end);
    WaitingOnly(u.devices, u.past, tenant);
    WaitingOnly(Last(before).devices, Last(before).past, tenant);
    Extend(before, past, tenant, cap, width, Settle(k, Registered(Name(k))), u);
    states, events := before + [u], past + [Settle(k, Registered(Name(k)))];
  }

  /** And then they settle one by one. */
  lemma {:induction false} AllSettle(before: seq<State>, past: seq<Event>, tenant: string, cap: nat, width: nat,
                                     k: nat, end: nat)
    returns (states: seq<State>, events: seq<Event>)
    requires Run(before, past, tenant, cap, width) && k <= end
    requires Last(before) == State(Fleet(tenant, k), Asking(tenant, cap, k, end))
    ensures Run(states, events, tenant, cap, width) && Last(states).devices == Fleet(tenant, end)
    decreases end - k
  {
    states, events := before, past;
    if k < end {
      states, events := OneSettles(before, past, tenant, cap, width, k, end);
      states, events := AllSettle(states, events, tenant, cap, width, k + 1, end);
    }
  }

  /** The check before the lock, exactly: with at most `width` requests of the tenant between
      check and lock, the most devices it can ever have is the cap and one more for each request
      beyond the first. Only one at a time keeps to the cap. */
  lemma CapRaceExactly(tenant: string, cap: nat, width: nat, bound: int)
    requires cap > 0 && width > 0
    ensures (forall states, events :: Run(states, events, tenant, cap, width) ==>
               |TenantDevices(Last(states).devices, tenant)| <= bound)
      <==> cap - 1 + width <= bound
  {
    if cap - 1 + width <= bound {
      forall states, events | Run(states, events, tenant, cap, width)
        ensures |TenantDevices(Last(states).devices, tenant)| <= bound
      {
        RaceBound(states, events, tenant, cap, width, |states| - 1);
      }
    } else {
      var states, events := AllCheck(tenant, cap, width, cap - 1, width);
      states, events := AllSettle(states, events, tenant, cap, width, cap - 1, cap - 1 + width);
      FleetSize(tenant, cap - 1 + width);
    }
  }
}
