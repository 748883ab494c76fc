/** The in-memory gate before the alerts table. */
module AlertGate {
  import opened Gates

  /** Five minutes in nanoseconds. */
  const WINDOW := 5 * 60 * 1_000_000_000

  /** The store remembers what matters of the history. */
  predicate Sound(store: map<string, int>, log: seq<Firing>, now: int) {
    Remembered(store, log, now, WINDOW) && AllCounted(log)
  }

  lemma Suppresses(store: map<string, int>, log: seq<Firing>, key: string, now: int)
    requires Sound(store, log, now) && Recent(log, key, now, WINDOW)
    ensures Sound(store, log + [Firing(key, now, false, false)], now)
  {
  }

  lemma Emits(store: map<string, int>, kept: map<string, int>, log: seq<Firing>, key: string, now: int)
    requires Sound(store, log, now) && !Recent(log, key, now, WINDOW) && Collected(store, kept, now)
    ensures Sound(kept[key := now], log + [Firing(key, now, true, true)], now)
  {
    MirrorForgets(store, kept, log, now, now, WINDOW);
    OpenWindow(kept, log, key, now, WINDOW);
  }

  predicate Collected(store: map<string, int>, kept: map<string, int>, now: int) {
    kept == map k | k in store && now - store[k] < WINDOW :: store[k]
  }

  class Gate {
    var store: map<string, int>
    /** Every request so far. */
    ghost var log: seq<Firing>

    ghost predicate Valid(now: int)
      reads this
    {
      Sound(store, log, now)
    }

    constructor ()
      ensures forall now :: Valid(now)
      ensures log == []
    {
      store, log := map[], [];
    }

    lemma Later(now: int, later: int)
      requires Valid(now) && now <= later
      ensures Valid(later)
    {
    }

    /** Forgets the windows that are over. */
    method Collect(now: int)
      modifies `store
      ensures Collected(old(store), store, now)
    {
      var todo := store.Keys;
      while todo != {}
        invariant todo <= old(store).Keys
        invariant store == map k | k in old(store) && (k in todo || now - old(store)[k] < WINDOW) :: old(store)[k]
        decreases todo
      {
        var k :| k in todo;
        todo := todo - {k};
        if now - store[k] >= WINDOW { store := store - {k}; }
      }
    }

    /** Emits exactly when the key has not been emitted within the window, whatever has been
        forgotten in the meantime. */
    method ShouldEmit(key: string, now: int) returns (emit: bool)
      requires Valid(now)
      modifies this
      ensures Valid(now) && log == old(log) + [Firing(key, now, emit, emit)]
      ensures emit <==> !Recent(old(log), key, now, WINDOW)
    {
      MirrorDecides(store, log, key, now, WINDOW);
      if key in store && now - store[key] < WINDOW {
        Suppresses(store, log, key, now);
        log := log + [Firing(key, now, false, false)];
        return false;
      }
      ghost var before := store;
      Collect(now);
      Emits(before, store, log, key, now);
      store := store[key := now];
      log := log + [Firing(key, now, true, true)];
      emit := true;
    }
  }
}
