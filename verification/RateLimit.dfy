/** The in-memory request limiter, shared by every limited route. */
module RateLimit {
  import opened Numbers
  import opened Options
  import opened Sequences

  datatype Entry = Entry(count: int, resetAt: int)

  /** One request: the route brings its own window and maximum, the key does not tell
      routes apart. */
  datatype Hit = Hit(key: string, at: int, window: int, max: int, admitted: bool)

  predicate Over(e: Option<Entry>, now: int) {
    e.None? || now > e.value.resetAt
  }

  function Counted(e: Option<Entry>, now: int, window: int): Entry {
    if Over(e, now) then Entry(1, now + window) else e.value.(count := e.value.count + 1)
  }

  predicate Admits(e: Option<Entry>, now: int, max: int) {
    Over(e, now) || e.value.count + 1 <= max
  }

  // ---- History without forgetting ----

  /** The key's last window if nothing were ever pruned. */
  function Window(log: seq<Hit>, key: string): Option<Entry> {
    if log == [] then None
    else if Last(log).key != key then Window(Front(log), key)
    else Some(Counted(Window(Front(log), key), Last(log).at, Last(log).window))
  }

  /** Times never go back, and every decision is that of the unpruned history. */
  predicate Faithful(log: seq<Hit>) {
    log == []
    || (var h := Last(log);
        Faithful(Front(log)) && (Front(log) != [] ==> Last(Front(log)).at <= h.at)
        && h.admitted == Admits(Window(Front(log), h.key), h.at, h.max))
  }

  function Served(log: seq<Hit>, key: string, at: int, window: int, max: int): seq<Hit> {
    log + [Hit(key, at, window, max, Admits(Window(log, key), at, max))]
  }

  lemma ServedFaithful(log: seq<Hit>, key: string, at: int, window: int, max: int)
    requires Faithful(log) && (log != [] ==> Last(log).at <= at)
    ensures Faithful(Served(log, key, at, window, max))
    ensures Window(Served(log, key, at, window, max), key) == Some(Counted(Window(log, key), at, window))
    ensures forall k :: k != key ==> Window(Served(log, key, at, window, max), k) == Window(log, k)
  {
  }

  function HitsFrom(log: seq<Hit>, key: string, j: nat): set<int> {
    set i | j <= i < |log| && log[i].key == key
  }

  /** The request at `j` began the window: it set its end, no later one of the key came after
      that, and all of them counted, those that were refused as well. */
  predicate Began(log: seq<Hit>, key: string, j: nat, e: Entry) {
    && j < |log| && log[j].key == key && e.resetAt == log[j].at + log[j].window
    && (forall i :: j < i < |log| && log[i].key == key ==> log[i].at <= e.resetAt)
    && e.count == |HitsFrom(log, key, j)|
  }

  /** What the key's entry says: nothing for a key without requests, otherwise which request
      began the window and how many have come since. */
  lemma {:induction false} WindowMeans(log: seq<Hit>, key: string)
    ensures Window(log, key).None? <==> forall i :: 0 <= i < |log| ==> log[i].key != key
    ensures Window(log, key).Some? ==> exists j: nat :: Began(log, key, j, Window(log, key).value)
  {
    if log != [] {
      var before, h := Front(log), Last(log);
      WindowMeans(before, key);
      assert forall i :: 0 <= i < |before| ==> before[i] == log[i];
      if h.key == key && Over(Window(before, key), h.at) {
        assert HitsFrom(log, key, |before|) == {|before|};
        assert Began(log, key, |before|, Window(log, key).value);
      } else if Window(before, key).Some? {
        var j: nat :| Began(before, key, j, Window(before, key).value);
        BeganLonger(log, key, j);
      }
    }
  }

  lemma BeganLonger(log: seq<Hit>, key: string, j: nat)
    requires log != [] && Window(Front(log), key).Some? && Began(Front(log), key, j, Window(Front(log), key).value)
    requires Last(log).key == key ==> !Over(Window(Front(log), key), Last(log).at)
    ensures Began(log, key, j, Window(log, key).value)
  {
    var before := Front(log);
    assert forall i :: 0 <= i < |before| ==> before[i] == log[i];
    assert HitsFrom(log, key, j) == HitsFrom(before, key, j) + if Last(log).key == key then {|before|} else {};
  }

  // ---- The limiter ----

  /** The store holds the last windows, and has forgotten only windows that are over. */
  ghost predicate Remembers(store: map<string, Entry>, log: seq<Hit>, now: int) {
    && Faithful(log) && (log != [] ==> Last(log).at <= now)
    && forall k :: if k in store then Window(log, k) == Some(store[k]) else Over(Window(log, k), now)
  }

  class Limiter {
    var store: map<string, Entry>
    /** Every request so far. */
    ghost var log: seq<Hit>

    ghost predicate Valid(now: int)
      reads this
    {
      Remembers(store, log, now)
    }

    constructor ()
      ensures log == [] && forall now :: Valid(now)
    {
      store, log := map[], [];
    }

    lemma Later(now: int, later: int)
      requires Valid(now) && now <= later
      ensures Valid(later)
    {
    }

    /** Decides as if nothing had ever been pruned. */
    method Allow(key: string, now: int, window: int, max: int) returns (ok: bool)
      requires Valid(now)
      modifies this
      ensures Valid(now) && log == Served(old(log), key, now, window, max)
      ensures ok == Last(log).admitted
    {
      ServedFaithful(log, key, now, window, max);
      if key !in store || now > store[key].resetAt {
        store := store[key := Entry(1, now + window)];
        ok := true;
      } else {
        store := store[key := store[key].(count := store[key].count + 1)];
        ok := !(store[key].count > max);
      }
      log := Served(log, key, now, window, max);
    }

    /** The background sweep. */
    method Prune(now: int)
      requires Valid(now)
      modifies `store
      ensures Valid(now)
      ensures store == map k | k in old(store) && now <= old(store)[k].resetAt :: old(store)[k]
    {
      var todo := store.Keys;
      while todo != {}
        invariant todo <= old(store).Keys
        invariant store == map k | k in old(store) && (k in todo || now <= old(store)[k].resetAt) :: old(store)[k]
        decreases todo
      {
        var k :| k in todo;
        todo := todo - {k};
        if now > store[k].resetAt { store := store - {k}; }
      }
    }
  }

  // ---- How much gets through ----

  predicate Counts(h: Hit, key: string, a: int, b: int, max: int) {
    h.key == key && h.admitted && a <= h.at <= b && h.max <= max
  }

  /** Admitted requests of the key in a stretch of time, of routes with at most this maximum. */
  function Passed(log: seq<Hit>, key: string, a: int, b: int, max: int): nat {
    if log == [] then 0 else Passed(Front(log), key, a, b, max) + if Counts(Last(log), key, a, b, max) then 1 else 0
  }

  function PassedWithin(log: seq<Hit>, key: string, a: int, length: nat, max: int): nat {
    Passed(log, key, a, a + length, max)
  }

  /** Every route that shares the key has at least this window; their maxima are free. */
  predicate Windows(log: seq<Hit>, key: string, window: int) {
    log == [] || (Windows(Front(log), key, window) && (Last(log).key == key ==> Last(log).window >= window))
  }

  /** The most that can pass in a stretch of this length: as many windows as can begin in it,
      and before them what is left of one that began earlier. */
  function Limit(window: nat, max: nat, length: nat): int {
    if length % (window + 1) == 0 then max * (length / (window + 1) + 1) else max * (length / (window + 1) + 2) - 1
  }

  /** The windows of the key that began in the stretch. */
  function Begun(log: seq<Hit>, key: string, a: int): nat {
    if log == [] then 0
    else
      var h := Last(log);
      Begun(Front(log), key, a) + if h.key == key && a <= h.at && Over(Window(Front(log), key), h.at) then 1 else 0
  }

  /** What passed in the stretch before the first window began in it. */
  function Carried(log: seq<Hit>, key: string, a: int, b: int, max: int): nat {
    if log == [] then 0
    else if Begun(log, key, a) == 0 then Passed(log, key, a, b, max)
    else Carried(Front(log), key, a, b, max)
  }

  lemma {:induction false} NothingYet(log: seq<Hit>, key: string, a: int, b: int, max: int)
    requires Faithful(log) && (log != [] ==> Last(log).at < a)
    ensures Passed(log, key, a, b, max) == 0 && Begun(log, key, a) == 0
  {
    if log != [] { NothingYet(Front(log), key, a, b, max); }
  }

  /** What holds along a history that ends inside the stretch. */
  predicate Bounded(log: seq<Hit>, key: string, a: int, window: nat, max: nat, length: nat) {
    var e, n, k := Window(log, key), Passed(log, key, a, a + length, max), Begun(log, key, a);
    var carried := Carried(log, key, a, a + length, max);
    && (e.Some? ==> e.value.count >= 1)
    && (if k == 0 then
          n == carried && (if e.None? then n == 0 else n < Min(e.value.count, max)) && (n > 0 ==> e.value.resetAt >= a)
        else
          && e.Some? && carried < max
          && n <= carried + max * (k - 1) + Min(e.value.count, max)
          && LastBegan(a, window, k, carried) <= a + length
          && LastBegan(a, window, k, carried) + window <= e.value.resetAt)
  }

  /** The earliest time at which the k-th window can have begun. */
  function LastBegan(a: int, window: nat, k: nat, carried: nat): int
    requires k > 0
  {
    a + (if carried > 0 then 1 else 0) + (k - 1) * (window + 1)
  }

  lemma NextBegan(a: int, window: nat, k: nat, carried: nat)
    requires k > 0
    ensures LastBegan(a, window, k + 1, carried) == LastBegan(a, window, k, carried) + window + 1
  {
  }

  lemma {:induction false} StretchBounded(log: seq<Hit>, key: string, a: int, window: nat, max: nat, length: nat)
    requires Faithful(log) && Windows(log, key, window) && max >= 1
    requires log != [] ==> Last(log).at <= a + length
    ensures Bounded(log, key, a, window, max, length)
  {
    if log != [] {
      StretchBounded(Front(log), key, a, window, max, length);
      if Last(log).at < a { NothingYet(log, key, a, a + length, max); }
      var k := Begun(Front(log), key, a);
      if k > 0 {
        NextBegan(a, window, k, Carried(Front(log), key, a, a + length, max));
        assert max * k == max * (k - 1) + max;
      }
    }
  }

  lemma LimitFromBound(window: nat, max: nat, length: nat, k: nat, carried: nat)
    requires 0 < k && carried < max && LastBegan(0, window, k, carried) <= length
    ensures carried + max * k <= Limit(window, max, length)
  {
    var d := window + 1;
    Division(length, d);
    assert LastBegan(0, window, k, carried) == (k - 1) * d + if carried > 0 then 1 else 0;
    FitsIn(max, d, length / d, length % d, k, carried);
  }

  lemma Division(n: nat, d: nat)
    requires d > 0
    ensures n == n / d * d + n % d && n % d < d
  {
  }

  /** The same with quotient and remainder named. */
  lemma FitsIn(max: nat, d: nat, q: nat, r: nat, k: nat, carried: nat)
    requires 0 < k && carried < max && r < d && (k - 1) * d + (if carried > 0 then 1 else 0) <= q * d + r
    ensures carried + max * k <= if r == 0 then max * (q + 1) else max * (q + 2) - 1
  {
    Successor(q, d);
    Successor(max, q);
    assert max * (q + 1) == max * q + max && max * (q + 2) == max * q + 2 * max;
    if carried > 0 && r == 0 {
      Ratio(k - 1, q - 1, d);
      Scaled(max, k, q);
    } else {
      Ratio(k - 1, q, d);
      Scaled(max, k, q + 1);
    }
  }

  lemma Successor(x: int, d: int)
    ensures (x + 1) * d == x * d + d
  {
  }

  /** Fewer than one more multiple is at most this many. */
  lemma Ratio(x: int, y: int, d: int)
    requires d > 0 && x * d < (y + 1) * d
    ensures x <= y
  {
    if x > y { Scaled(d, y + 1, x); }
  }

  lemma Scaled(m: nat, x: int, y: int)
    requires x <= y
    ensures m * x <= m * y
  {
  }

  lemma {:induction false} LateHits(log: seq<Hit>, key: string, a: int, b: int, max: int) returns (early: seq<Hit>)
    requires Faithful(log)
    ensures Faithful(early) && (early != [] ==> Last(early).at <= b)
    ensures Passed(early, key, a, b, max) == Passed(log, key, a, b, max)
    ensures forall window :: Windows(log, key, window) ==> Windows(early, key, window)
  {
    early := log;
    if log != [] && Last(log).at > b { early := LateHits(Front(log), key, a, b, max); }
  }

  /** No stretch lets more than the limit through, of the routes with at most this maximum. */
  lemma WithinLimit(log: seq<Hit>, key: string, a: int, window: nat, max: nat, length: nat)
    requires Faithful(log) && Windows(log, key, window) && max >= 1
    ensures PassedWithin(log, key, a, length, max) <= Limit(window, max, length)
  {
    var early := LateHits(log, key, a, a + length, max);
    StretchBounded(early, key, a, window, max, length);
    LimitOfBounded(early, key, a, window, max, length);
  }

  lemma LimitOfBounded(log: seq<Hit>, key: string, a: int, window: nat, max: nat, length: nat)
    requires Bounded(log, key, a, window, max, length) && max >= 1
    ensures Passed(log, key, a, a + length, max) <= Limit(window, max, length)
  {
    var k, carried := Begun(log, key, a), Carried(log, key, a, a + length, max);
    if k > 0 {
      LastBeganFrom(a, window, k, carried);
      LimitFromBound(window, max, length, k, carried);
      Successor(k - 1, max);
    } else {
      LimitAtLeast(window, max, length);
    }
  }

  lemma LastBeganFrom(a: int, window: nat, k: nat, carried: nat)
    requires k > 0
    ensures LastBegan(a, window, k, carried) == a + LastBegan(0, window, k, carried)
  {
  }

  lemma LimitAtLeast(window: nat, max: nat, length: nat)
    requires max >= 1
    ensures Limit(window, max, length) >= max
  {
    Scaled(max, 1, length / (window + 1) + 1);
    assert max * (length / (window + 1) + 2) == max * (length / (window + 1) + 1) + max;
  }

  // ---- Reaching the limit ----

  /** So many requests at once. */
  function Volley(log: seq<Hit>, key: string, at: int, window: int, max: int, n: nat): seq<Hit>
    decreases n
  {
    if n == 0 then log else Volley(Served(log, key, at, window, max), key, at, window, max, n - 1)
  }

  function Room(e: Option<Entry>, at: int, max: int): int {
    if Over(e, at) then max else max - e.value.count
  }

  /** The window after requests at one time that it has room for. */
  function Filled(e: Option<Entry>, at: int, window: int, n: nat): Option<Entry> {
    if n == 0 then e else Some(if Over(e, at) then Entry(n, at + window) else Entry(e.value.count + n, e.value.resetAt))
  }

  lemma HitPasses(log: seq<Hit>, key: string, at: int, window: nat, max: nat, a: int, b: int)
    requires Steady(log, key, at, window, max) && 1 <= Room(Window(log, key), at, max)
    ensures var after := Served(log, key, at, window, max);
      && Faithful(after) && Windows(after, key, window) && after != [] && Last(after).at == at
      && Passed(after, key, a, b, max) == Passed(log, key, a, b, max) + (if a <= at <= b then 1 else 0)
      && Window(after, key) == Filled(Window(log, key), at, window, 1)
  {
    ServedFaithful(log, key, at, window, max);
    assert Front(Served(log, key, at, window, max)) == log;
  }

  /** A history with such windows that ends by this time. */
  predicate Steady(log: seq<Hit>, key: string, at: int, window: int, max: int) {
    Faithful(log) && Windows(log, key, window) && (log != [] ==> Last(log).at <= at)
  }

  lemma {:induction false} VolleyPasses(log: seq<Hit>, key: string, at: int, window: nat, max: nat, n: nat, a: int,
                                        b: int)
    requires Steady(log, key, at, window, max) && n <= Room(Window(log, key), at, max)
    ensures Steady(Volley(log, key, at, window, max, n), key, at, window, max)
    ensures var more := if a <= at <= b then n else 0;
      Passed(Volley(log, key, at, window, max, n), key, a, b, max) == Passed(log, key, a, b, max) + more
    ensures Window(Volley(log, key, at, window, max, n), key) == Filled(Window(log, key), at, window, n)
    decreases n
  {
    if n > 0 {
      var next := Served(log, key, at, window, max);
      HitPasses(log, key, at, window, max, a, b);
      SteadyLater(next, key, at, window, max);
      FilledNext(Window(log, key), at, window, max, n - 1);
      VolleyPasses(next, key, at, window, max, n - 1, a, b);
    }
  }

  lemma FilledNext(e: Option<Entry>, at: int, window: nat, max: int, n: nat)
    requires n + 1 <= Room(e, at, max)
    ensures n <= Room(Filled(e, at, window, 1), at, max)
    ensures Filled(Filled(e, at, window, 1), at, window, n) == Filled(e, at, window, n + 1)
  {
  }

  lemma SteadyLater(log: seq<Hit>, key: string, at: int, window: int, max: int)
    requires Faithful(log) && Windows(log, key, window) && log != [] && Last(log).at == at
    ensures Steady(log, key, at, window, max)
  {
  }

  /** Full windows one after another. */
  function Series(log: seq<Hit>, key: string, at: int, window: nat, max: nat, n: nat): seq<Hit>
    decreases n
  {
    if n == 0 then log
    else Series(Volley(log, key, at, window, max, max), key, at + window + 1, window, max, n - 1)
  }

  lemma {:induction false} SeriesPasses(log: seq<Hit>, key: string, at: int, window: nat, max: nat, n: nat, a: int,
                                        b: int)
    requires Steady(log, key, at, window, max) && Over(Window(log, key), at) && max >= 1
    requires a <= at && (n > 0 ==> at + (n - 1) * (window + 1) <= b)
    ensures Faithful(Series(log, key, at, window, max, n))
    ensures Windows(Series(log, key, at, window, max, n), key, window)
    ensures Passed(Series(log, key, at, window, max, n), key, a, b, max) == Passed(log, key, a, b, max) + max * n
    decreases n
  {
    if n > 0 {
      OneLess(at, window, n, b);
      VolleyPasses(log, key, at, window, max, max, a, b);
      SeriesPasses(Volley(log, key, at, window, max, max), key, at + window + 1, window, max, n - 1, a, b);
      Multiple(max, n);
    }
  }

  lemma OneLess(at: int, window: nat, n: nat, b: int)
    requires n > 0 && at + (n - 1) * (window + 1) <= b
    ensures at <= b && (n > 1 ==> at + window + 1 + (n - 2) * (window + 1) <= b)
  {
    Scaled(window + 1, 0, n - 1);
    if n > 1 { Successor(n - 2, window + 1); }
  }

  lemma Multiple(max: nat, n: nat)
    requires n > 0
    ensures max * n == max + max * (n - 1)
  {
  }

  /** The run that reaches it: windows filled at once, one right after another, and in front
      of them a window that began as early as it could with all but one request held back. */
  function Busiest(key: string, a: int, window: nat, max: nat, length: nat): seq<Hit>
    requires max >= 1
  {
    var n := length / (window + 1) + 1;
    if length % (window + 1) == 0 then Series([], key, a, window, max, n)
    else Series(Volley(Volley([], key, a - window, window, max, 1), key, a, window, max, max - 1), key, a + 1, window,
      max, n)
  }

  lemma OneBefore(key: string, a: int, window: nat, max: nat, b: int)
    requires max >= 1 && window >= 1 && a <= b
    ensures var log := Volley(Volley([], key, a - window, window, max, 1), key, a, window, max, max - 1);
      && Steady(log, key, a, window, max) && Passed(log, key, a, b, max) == max - 1
      && Window(log, key) == Some(Entry(max, a))
  {
    VolleyPasses([], key, a - window, window, max, 1, a, b);
    VolleyPasses(Volley([], key, a - window, window, max, 1), key, a, window, max, max - 1, a, b);
  }

  lemma LimitMet(key: string, a: int, window: nat, max: nat, length: nat)
    requires max >= 1
    ensures var log := Busiest(key, a, window, max, length);
      && Faithful(log) && Windows(log, key, window)
      && PassedWithin(log, key, a, length, max) == Limit(window, max, length)
  {
    var d := window + 1;
    if length % d == 0 {
      SeriesPasses([], key, a, window, max, length / d + 1, a, a + length);
    } else {
      BusiestOdd(key, a, window, max, length, length / d);
    }
  }

  lemma BusiestOdd(key: string, a: int, window: nat, max: nat, length: nat, q: nat)
    requires max >= 1 && window >= 1 && q * (window + 1) < length
    ensures var first := Volley(Volley([], key, a - window, window, max, 1), key, a, window, max, max - 1);
      var log := Series(first, key, a + 1, window, max, q + 1);
      && Faithful(log) && Windows(log, key, window)
      && Passed(log, key, a, a + length, max) == max * (q + 2) - 1
  {
    OneBefore(key, a, window, max, a + length);
    var first := Volley(Volley([], key, a - window, window, max, 1), key, a, window, max, max - 1);
    SeriesPasses(first, key, a + 1, window, max, q + 1, a, a + length);
    assert max * (q + 2) == max * (q + 1) + max;
  }

  /** A route that shares its key only with routes of at least its window lets through less
      than twice its maximum in any stretch of its window, whatever their maxima. */
  lemma LessThanTwiceMax(log: seq<Hit>, key: string, a: int, window: nat, max: nat)
    requires Faithful(log) && Windows(log, key, window) && max >= 1
    ensures PassedWithin(log, key, a, window, max) <= 2 * max - 1
  {
    WithinLimit(log, key, a, window, max, window);
    assert window / (window + 1) == 0;
  }

  /** When twice a route's maximum bounds what it lets through in a stretch, exactly: where the
      shortest window on the key is `window`, the stretch must not be longer than that window
      and one tick, or less than two of them if a single request is the maximum. A stretch of
      an hour beside a route with a minute is too long. */
  lemma TwiceMaxExactly(key: string, window: nat, max: nat, length: nat)
    requires max >= 1
    ensures NeverMoreThanTwice(key, window, max, length) <==>
      length <= window + 1 || (max == 1 && length < 2 * (window + 1))
  {
    LimitTwice(window, max, length);
    if Limit(window, max, length) <= 2 * max {
      forall log, a | Faithful(log) && Windows(log, key, window)
        ensures PassedWithin(log, key, a, length, max) <= 2 * max
      {
        WithinLimit(log, key, a, window, max, length);
      }
    } else {
      LimitMet(key, 0, window, max, length);
      assert PassedWithin(Busiest(key, 0, window, max, length), key, 0, length, max) > 2 * max;
    }
  }

  /** Whatever the history of a key with such windows, and wherever the stretch begins. */
  ghost predicate NeverMoreThanTwice(key: string, window: nat, max: nat, length: nat) {
    forall log, a ::
      Faithful(log) && Windows(log, key, window) ==> PassedWithin(log, key, a, length, max) <= 2 * max
  }

  lemma LimitTwice(window: nat, max: nat, length: nat)
    requires max >= 1
    ensures Limit(window, max, length) <= 2 * max <==> length <= window + 1 || (max == 1 && length < 2 * (window + 1))
  {
    Division(length, window + 1);
    LimitCases(max, length / (window + 1));
    QuotientCases(length, window + 1, length / (window + 1), length % (window + 1));
  }

  lemma QuotientCases(length: nat, d: nat, q: nat, r: nat)
    requires length == q * d + r && r < d
    ensures q == 0 ==> length < d
    ensures q == 1 ==> length == d + r
    ensures q >= 2 ==> length >= 2 * d
  {
    if q >= 2 { Scaled(d, 2, q); }
  }

  lemma LimitCases(m: nat, q: int)
    requires m >= 1 && q >= 0
    ensures q >= 2 ==> m * (q + 1) > 2 * m && m * (q + 2) - 1 > 2 * m
    ensures q == 1 ==> m * (q + 1) == 2 * m && m * (q + 2) - 1 == 3 * m - 1
    ensures q == 0 ==> m * (q + 1) == m && m * (q + 2) - 1 == 2 * m - 1
  {
    if q >= 2 {
      Scaled(m, 3, q + 1);
      Scaled(m, 4, q + 2);
    }
  }

  // ---- Routes that share a key ----

  /** A request to the sign-up route: it counts on the limiter of its group, 60 a minute, and
      if that lets it through on its own, 5 an hour. Both go by the client's address. */
  function SignUp(log: seq<Hit>, key: string, at: int): seq<Hit> {
    var outer := Served(log, key, at, 60, 60);
    if Last(outer).admitted then Served(outer, key, at, 3600, 5) else outer
  }

  /** Admitted requests of the route with 5 an hour. */
  function Hourly(log: seq<Hit>): nat {
    if log == [] then 0 else Hourly(Front(log)) + if Last(log).admitted && Last(log).window == 3600 then 1 else 0
  }

  lemma ServedOnce(log: seq<Hit>, key: string, at: int, window: int, max: int)
    requires Faithful(log) && (log != [] ==> Last(log).at <= at)
    ensures var after := Served(log, key, at, window, max);
      && Faithful(after) && after != [] && Last(after).at == at
      && Window(after, key) == Some(Counted(Window(log, key), at, window))
      && Last(after).admitted == Admits(Window(log, key), at, max)
      && Hourly(after) == Hourly(log) + if Admits(Window(log, key), at, max) && window == 3600 then 1 else 0
  {
    ServedFaithful(log, key, at, window, max);
    assert Front(Served(log, key, at, window, max)) == log;
  }

  /** A request that opens the key's window counts twice on it. */
  lemma FirstSignUp(log: seq<Hit>, key: string, at: int)
    requires Faithful(log) && (log != [] ==> Last(log).at <= at) && Over(Window(log, key), at)
    ensures var after := SignUp(log, key, at);
      && Faithful(after) && after != [] && Last(after).at == at
      && Window(after, key) == Some(Entry(2, at + 60)) && Hourly(after) == Hourly(log) + 1
  {
    ServedOnce(log, key, at, 60, 60);
    ServedOnce(Served(log, key, at, 60, 60), key, at, 3600, 5);
  }

  /** The second one still fits under the five. */
  lemma SecondSignUp(log: seq<Hit>, key: string, at: int, resetAt: int)
    requires Faithful(log) && (log != [] ==> Last(log).at <= at) && Window(log, key) == Some(Entry(2, resetAt))
    requires at <= resetAt
    ensures var after := SignUp(log, key, at);
      && Faithful(after) && after != [] && Last(after).at == at
      && Window(after, key) == Some(Entry(4, resetAt)) && Hourly(after) == Hourly(log) + 1
  {
    ServedOnce(log, key, at, 60, 60);
    ServedOnce(Served(log, key, at, 60, 60), key, at, 3600, 5);
  }

  lemma TwoSignUps(log: seq<Hit>, key: string, at: int)
    requires Faithful(log) && (log != [] ==> Last(log).at <= at) && Over(Window(log, key), at)
    ensures var after := SignUp(SignUp(log, key, at), key, at);
      && Faithful(after) && after != [] && Last(after).at == at
      && Window(after, key) == Some(Entry(4, at + 60)) && Hourly(after) == Hourly(log) + 2
  {
    FirstSignUp(log, key, at);
    SecondSignUp(SignUp(log, key, at), key, at, at + 60);
  }

  /** The same at one time after another, 61 seconds apart. */
  function Repeated(step: (seq<Hit>, int) -> seq<Hit>, log: seq<Hit>, start: int, n: nat): seq<Hit>
    decreases n
  {
    if n == 0 then log else Repeated(step, step(log, start), start + 61, n - 1)
  }

  predicate Ready(log: seq<Hit>, key: string, at: int) {
    Faithful(log) && (log != [] ==> Last(log).at <= at) && Over(Window(log, key), at)
  }

  /** Two of the hour get through, and the key's window is over 61 seconds later. */
  predicate TwoPass(before: seq<Hit>, after: seq<Hit>, key: string, at: int) {
    && Ready(after, key, at + 61) && after != [] && Last(after).at == at
    && Hourly(after) == Hourly(before) + 2
  }

  lemma {:induction false} TwoPassEach(step: (seq<Hit>, int) -> seq<Hit>, log: seq<Hit>, key: string, start: int,
                                       n: nat)
    requires Ready(log, key, start)
    requires forall l, at :: Ready(l, key, at) ==> TwoPass(l, step(l, at), key, at)
    ensures var after := Repeated(step, log, start, n);
      && Faithful(after) && Hourly(after) == Hourly(log) + 2 * n
      && (n > 0 ==> after != [] && Last(after).at == start + 61 * (n - 1))
    decreases n
  {
    if n > 0 {
      assert TwoPass(log, step(log, start), key, start);
      TwoPassEach(step, step(log, start), key, start + 61, n - 1);
    }
  }

  /** Two sign-ups every 61 seconds. */
  function SignUps(log: seq<Hit>, key: string, start: int, n: nat): seq<Hit> {
    Repeated((l, at) => SignUp(SignUp(l, key, at), key, at), log, start, n)
  }

  /** The minute of the group keeps restarting the count of the hour: from any history, once
      the key's window is over, two sign-ups pass every 61 seconds for as long as one likes,
      twelve of them in 305 seconds against a limit of 5 an hour. */
  lemma SharedKeyBreaksBound(log: seq<Hit>, key: string, start: int, n: nat)
    requires Faithful(log) && (log != [] ==> Last(log).at <= start) && Over(Window(log, key), start)
    ensures Faithful(SignUps(log, key, start, n)) && Hourly(SignUps(log, key, start, n)) == Hourly(log) + 2 * n
    ensures n > 0 ==> SignUps(log, key, start, n) != [] && Last(SignUps(log, key, start, n)).at == start + 61 * (n - 1)
  {
    var step := (l, at) => SignUp(SignUp(l, key, at), key, at);
    forall l, at | Ready(l, key, at) ensures TwoPass(l, step(l, at), key, at) {
      TwoSignUps(l, key, at);
    }
    TwoPassEach(step, log, key, start, n);
  }
}
