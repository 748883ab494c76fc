/** What a once-per-window gate decides, told from its history alone. */
module Gates {
  /** One request: `counted` when its firing starts a window. */
  datatype Firing = Firing(key: string, at: int, fired: bool, counted: bool)

  /** A firing of the key still inside its window. */
  predicate Recent(log: seq<Firing>, key: string, now: int, window: int) {
    exists j :: 0 <= j < |log| && log[j].key == key && log[j].counted && now - log[j].at < window
  }

  /** Every request fired exactly when no counted firing of its key was recent. */
  predicate Gated(log: seq<Firing>, window: int) {
    log == []
    || (var f, before := log[|log| - 1], log[..|log| - 1];
        Gated(before, window) && (f.fired <==> !Recent(before, f.key, f.at, window)) && (f.counted ==> f.fired))
  }

  /** Firings of one key are at least a window apart once counted, and whatever was held
      back follows a counted firing by less than a window. */
  lemma {:induction false} GatedMeans(log: seq<Firing>, window: int, j: nat)
    requires Gated(log, window) && j < |log|
    ensures log[j].fired ==> forall i ::
      0 <= i < j && log[i].key == log[j].key && log[i].counted ==> log[j].at - log[i].at >= window
    ensures !log[j].fired ==> !log[j].counted && exists i ::
      0 <= i < j && log[i].key == log[j].key && log[i].counted && log[j].at - log[i].at < window
    decreases |log|
  {
    var before := log[..|log| - 1];
    if j < |before| {
      GatedMeans(before, window, j);
      if !log[j].fired {
        var i :| 0 <= i < j && before[i].key == before[j].key && before[i].counted &&
          before[j].at - before[i].at < window;
        assert log[i] == before[i];
      } else {
        forall i | 0 <= i < j && log[i].key == log[j].key && log[i].counted ensures log[j].at - log[i].at >= window {
          assert before[i] == log[i];
        }
      }
    } else {
      forall i | 0 <= i < j && log[i].key == log[j].key && log[i].counted && log[j].fired
        ensures log[j].at - log[i].at >= window
      {
        assert before[i] == log[i];
      }
      if !log[j].fired {
        var i :| 0 <= i < |before| && before[i].key == log[j].key && before[i].counted &&
          log[j].at - before[i].at < window;
        assert before[i] == log[i];
      }
    }
  }

  predicate SameRequests(a: seq<Firing>, b: seq<Firing>) {
    |a| == |b| && forall i :: 0 <= i < |a| ==> a[i].key == b[i].key && a[i].at == b[i].at
  }

  predicate AllCounted(log: seq<Firing>) {
    forall i :: 0 <= i < |log| ==> log[i].counted == log[i].fired
  }

  /** The requests determine the decisions: whatever two gates forget and whenever, they
      decide alike. */
  lemma {:induction false} GatedUnique(a: seq<Firing>, b: seq<Firing>, window: int)
    requires Gated(a, window) && Gated(b, window) && SameRequests(a, b) && AllCounted(a) && AllCounted(b)
    ensures a == b
    decreases |a|
  {
    if a != [] {
      var n := |a| - 1;
      forall i | 0 <= i < n ensures a[..n][i] == a[i] && b[..n][i] == b[i] {
      }
      GatedUnique(a[..n], b[..n], window);
      assert a == a[..n] + [a[n]] && b == b[..n] + [b[n]];
    }
  }

  // ---- Remembering only the last firing of each key ----

  /** A map of window starts agrees with the history at this moment: it holds counted
      firings only, and misses none that is recent. Nothing in the history is later. */
  predicate Mirrors(starts: map<string, int>, log: seq<Firing>, now: int, window: int) {
    && (forall j :: 0 <= j < |log| ==> log[j].at <= now)
    && (forall k :: k in starts ==>
      exists j :: 0 <= j < |log| && log[j].key == k && log[j].counted && log[j].at == starts[k])
    && forall j :: 0 <= j < |log| && log[j].counted && now - log[j].at < window
         ==> log[j].key in starts && log[j].at <= starts[log[j].key]
  }

  /** The map alone decides as the history does. */
  lemma MirrorDecides(starts: map<string, int>, log: seq<Firing>, key: string, now: int, window: int)
    requires Mirrors(starts, log, now, window)
    ensures Recent(log, key, now, window) <==> key in starts && now - starts[key] < window
  {
  }

  /** Forgetting windows that are over goes unnoticed. */
  lemma MirrorForgets(starts: map<string, int>, fewer: map<string, int>, log: seq<Firing>, now: int, later: int,
                      window: int)
    requires Mirrors(starts, log, now, window) && now <= later
    requires forall k :: k in fewer ==> k in starts && fewer[k] == starts[k]
    requires forall k :: k in starts && k !in fewer ==> later - starts[k] >= window
    ensures Mirrors(fewer, log, later, window)
  {
  }

  /** The window starts are all a gate needs of its history. */
  predicate Remembered(starts: map<string, int>, log: seq<Firing>, now: int, window: int) {
    Gated(log, window) && Mirrors(starts, log, now, window)
  }

  /** A counted firing starts its key's window. */
  lemma OpenWindow(starts: map<string, int>, log: seq<Firing>, key: string, now: int, window: int)
    requires Remembered(starts, log, now, window) && !Recent(log, key, now, window)
    ensures Remembered(starts[key := now], log + [Firing(key, now, true, true)], now, window)
  {
  }
}
