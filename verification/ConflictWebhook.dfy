/** The degraded-mode limiter of the registration-conflict webhook. */
module ConflictWebhook {
  import opened Gates

  const WINDOW := 3600
  const BUCKET_MAX := 100_000

  datatype Bucket = Bucket(windowStart: int, count: int)

  function Starts(buckets: map<string, Bucket>): map<string, int> {
    map k | k in buckets :: buckets[k].windowStart
  }

  predicate Over(b: Bucket, now: int) {
    b.windowStart == 0 || now - b.windowStart >= WINDOW
  }

  /** The map remembers what matters of the history and keeps to its limit. */
  predicate Sound(buckets: map<string, Bucket>, log: seq<Firing>, now: int) {
    Remembered(Starts(buckets), log, now, WINDOW) && Fits(buckets)
  }

  predicate Fits(buckets: map<string, Bucket>) {
    (forall k :: k in buckets ==> buckets[k].windowStart > 0) && |buckets| <= BUCKET_MAX
  }

  predicate Pruned(buckets: map<string, Bucket>, kept: map<string, Bucket>, now: int) {
    kept == map k | k in buckets && !Over(buckets[k], now) :: buckets[k]
  }

  lemma SoundPruned(buckets: map<string, Bucket>, kept: map<string, Bucket>, log: seq<Firing>, now: int)
    requires Sound(buckets, log, now) && Pruned(buckets, kept, now)
    ensures |kept| <= |buckets| && Sound(kept, log, now)
  {
    Fewer(kept.Keys, buckets.Keys);
    MirrorForgets(Starts(buckets), Starts(kept), log, now, now, WINDOW);
  }

  lemma {:induction false} Fewer(a: set<string>, b: set<string>)
    requires a <= b
    ensures |a| <= |b|
    decreases a
  {
    if x :| x in a { Fewer(a - {x}, b - {x}); }
  }

  /** A firing that finds no room, or a request held back. */
  lemma SoundNoted(buckets: map<string, Bucket>, log: seq<Firing>, key: string, now: int, fired: bool)
    requires Sound(buckets, log, now) && (fired <==> !Recent(log, key, now, WINDOW))
    ensures Sound(buckets, log + [Firing(key, now, fired, false)], now)
  {
  }

  lemma Opened(buckets: map<string, Bucket>, key: string, now: int)
    ensures Starts(buckets[key := Bucket(now, 1)]) == Starts(buckets)[key := now]
    ensures |buckets[key := Bucket(now, 1)]| == |buckets| + if key in buckets then 0 else 1
  {
  }

  lemma SoundOpened(buckets: map<string, Bucket>, log: seq<Firing>, key: string, now: int)
    requires Sound(buckets, log, now) && now > 0 && !Recent(log, key, now, WINDOW)
    requires (key in buckets || |buckets| < BUCKET_MAX)
    ensures Sound(buckets[key := Bucket(now, 1)], log + [Firing(key, now, true, true)], now)
  {
    OpenWindow(Starts(buckets), log, key, now, WINDOW);
    Opened(buckets, key, now);
  }

  lemma SoundCounted(buckets: map<string, Bucket>, log: seq<Firing>, key: string, now: int, count: int)
    requires Sound(buckets, log, now) && key in buckets
    ensures Sound(buckets[key := Bucket(buckets[key].windowStart, count)], log, now)
  {
    var after := buckets[key := Bucket(buckets[key].windowStart, count)];
    assert Starts(after) == Starts(buckets);
    assert after.Keys == buckets.Keys;
  }

  lemma BucketDecides(buckets: map<string, Bucket>, log: seq<Firing>, key: string, now: int)
    requires Sound(buckets, log, now)
    ensures Recent(log, key, now, WINDOW) <==> key in buckets && !Over(buckets[key], now)
  {
    MirrorDecides(Starts(buckets), log, key, now, WINDOW);
  }

  /** A firing that started no window found the map full of other keys' live windows. */
  predicate Crowded(buckets: map<string, Bucket>, key: string, now: int) {
    |buckets| == BUCKET_MAX && key !in buckets && forall k :: k in buckets ==> !Over(buckets[k], now)
  }

  class Limiter {
    var buckets: map<string, Bucket>
    /** Every request so far. */
    ghost var log: seq<Firing>

    ghost predicate Valid(now: int)
      reads this
    {
      Sound(buckets, log, now)
    }

    constructor ()
      ensures forall now :: Valid(now)
      ensures log == []
    {
      buckets, log := map[], [];
    }

    lemma Later(now: int, later: int)
      requires Valid(now) && now <= later
      ensures Valid(later)
    {
    }

    /** Takes out exactly the windows that are over; no decision changes. */
    method Prune(now: int) returns (removed: nat)
      requires Valid(now)
      modifies `buckets
      ensures Valid(now) && Pruned(old(buckets), buckets, now)
      ensures removed == |old(buckets)| - |buckets|
    {
      var todo := buckets.Keys;
      removed := 0;
      while todo != {}
        invariant todo <= old(buckets).Keys
        invariant buckets == map k | k in old(buckets) && (k in todo || !Over(old(buckets)[k], now)) :: old(buckets)[k]
        invariant removed == |old(buckets)| - |buckets|
        decreases todo
      {
        var k :| k in todo;
        todo := todo - {k};
        if Over(buckets[k], now) {
          assert buckets.Keys == (buckets - {k}).Keys + {k};
          buckets := buckets - {k};
          removed := removed + 1;
        }
      }
      SoundPruned(old(buckets), buckets, log, now);
    }

    /** Tries to make room for a new key. */
    method MakeRoom(key: string, now: int) returns (room: bool)
      requires Valid(now) && key !in buckets
      modifies `buckets
      ensures Valid(now) && key !in buckets
      ensures room <==> |buckets| < BUCKET_MAX
      ensures !room ==> Crowded(buckets, key, now)
    {
      if |buckets| >= BUCKET_MAX {
        var _ := Prune(now);
      }
      room := |buckets| < BUCKET_MAX;
    }

    /** Starts a window for the key. */
    method Open(key: string, now: int)
      requires Valid(now) && now > 0 && !Recent(log, key, now, WINDOW) && (key in buckets || |buckets| < BUCKET_MAX)
      modifies this
      ensures Valid(now) && log == old(log) + [Firing(key, now, true, true)]
      ensures buckets == old(buckets)[key := Bucket(now, 1)]
    {
      SoundOpened(buckets, log, key, now);
      buckets := buckets[key := Bucket(now, 1)];
      log := log + [Firing(key, now, true, true)];
    }

    /** Counts a request inside a live window. */
    method Hold(key: string, now: int) returns (count: int)
      requires Valid(now) && Recent(log, key, now, WINDOW) && key in buckets
      modifies this
      ensures Valid(now) && log == old(log) + [Firing(key, now, false, false)]
      ensures buckets == old(buckets)[key := Bucket(old(buckets)[key].windowStart, count)]
      ensures count == old(buckets)[key].count + 1
    {
      count := buckets[key].count + 1;
      SoundCounted(buckets, log, key, now, count);
      buckets := buckets[key := Bucket(buckets[key].windowStart, count)];
      SoundNoted(buckets, log, key, now, false);
      log := log + [Firing(key, now, false, false)];
    }

    /** Fires exactly when no counted firing of the key is recent, and always with a count of
        1. The map never outgrows its limit. */
    method Trigger(key: string, now: int) returns (fire: bool, count: int, ghost counted: bool)
      requires Valid(now) && now > 0
      modifies this
      ensures Valid(now) && log == old(log) + [Firing(key, now, fire, counted)]
      ensures fire <==> !Recent(old(log), key, now, WINDOW)
      ensures fire ==> count == 1
      ensures counted <==> fire && !Crowded(buckets, key, now)
    {
      BucketDecides(buckets, log, key, now);
      var room := true;
      if key !in buckets {
        room := MakeRoom(key, now);
        if !room {
          SoundNoted(buckets, log, key, now, true);
          log := log + [Firing(key, now, true, false)];
          return true, 1, false;
        }
      }
      if key !in buckets || Over(buckets[key], now) {
        Open(key, now);
        return true, 1, true;
      }
      count := Hold(key, now);
      fire, counted := false, false;
    }
  }
}
