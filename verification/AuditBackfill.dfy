/** The startup walk that signs and numbers rows written before the chain existed. */
module AuditBackfill {
  import opened Ordering
  import opened Sequences
  import opened AuditRecord
  import opened AuditChain
  import opened AuditTable

  /** `ORDER BY tenant_id ASC, created_at ASC, id ASC`. */
  predicate WalkBefore(a: Row, b: Row) {
    || TextBefore(a.tenant, b.tenant)
    || (a.tenant == b.tenant && (a.createdAt < b.createdAt || (a.createdAt == b.createdAt && TextBefore(a.id, b.id))))
  }

  function Walk(rows: seq<Row>): seq<Row> {
    OrderBy(rows, WalkBefore)
  }

  function HeadOf(heads: map<string, Sig>, tenant: string): Sig {
    if tenant in heads then heads[tenant] else Unsigned
  }

  function SlotOf(slots: map<string, int>, tenant: string): int {
    if tenant in slots then slots[tenant] else 0
  }

  predicate Unstamped(r: Row) {
    r.sig == Unsigned || r.seqNo == 0
  }

  /** A row as the walk leaves it when the head before it is `h` and its slot is `n`:
      a stored signature is never rewritten. */
  function Stamp(r: Row, h: Sig, n: int): Row {
    if Unstamped(r) then r.(sig := if r.sig == Unsigned then Mac(h, Payload(r)) else r.sig, seqNo := n) else r
  }

  function Stamped(heads: map<string, Sig>, slots: map<string, int>, walk: seq<Row>): seq<Row>
    decreases walk
  {
    if walk == [] then []
    else
      var r := walk[0];
      [Stamp(r, HeadOf(heads, r.tenant), SlotOf(slots, r.tenant) + 1)]
        + Stamped(HeadsAfter(heads, slots, r), SlotsAfter(slots, r), walk[1..])
  }

  function HeadsAfter(heads: map<string, Sig>, slots: map<string, int>, r: Row): map<string, Sig> {
    heads[r.tenant := Next(Stamp(r, HeadOf(heads, r.tenant), SlotOf(slots, r.tenant) + 1))]
  }

  function SlotsAfter(slots: map<string, int>, r: Row): map<string, int> {
    slots[r.tenant := SlotOf(slots, r.tenant) + 1]
  }

  lemma StampedFront(heads: map<string, Sig>, slots: map<string, int>, r: Row, rest: seq<Row>)
    ensures Stamped(heads, slots, [r] + rest) ==
      [Stamp(r, HeadOf(heads, r.tenant), SlotOf(slots, r.tenant) + 1)]
        + Stamped(HeadsAfter(heads, slots, r), SlotsAfter(slots, r), rest)
  {
  }

  /** The same walk seen by one tenant. */
  function StampedTenant(h: Sig, n: int, walk: seq<Row>): seq<Row>
    decreases walk
  {
    if walk == [] then []
    else
      var r := Stamp(walk[0], h, n + 1);
      [r] + StampedTenant(Next(r), n + 1, walk[1..])
  }

  lemma {:induction false} StampedForTenant(heads: map<string, Sig>, slots: map<string, int>, walk: seq<Row>,
                                            tenant: string)
    ensures ForTenant(Stamped(heads, slots, walk), tenant) ==
      StampedTenant(HeadOf(heads, tenant), SlotOf(slots, tenant), ForTenant(walk, tenant))
    decreases walk
  {
    if walk != [] {
      StampedForTenant(HeadsAfter(heads, slots, walk[0]), SlotsAfter(slots, walk[0]), walk[1..], tenant);
    }
  }

  // ---- Order ----

  lemma WalkOrder()
    ensures StrictWeakOrder(WalkBefore)
  {
    forall x: Row ensures !WalkBefore(x, x) {
      TextBeforeIrreflexive(x.tenant);
      TextBeforeIrreflexive(x.id);
    }
    forall x: Row, y: Row, z: Row | WalkBefore(x, y) && WalkBefore(y, z) ensures WalkBefore(x, z) {
      WalkTransitive(x, y, z);
    }
    forall x: Row, y: Row, z: Row | WalkBefore(x, z) ensures WalkBefore(x, y) || WalkBefore(y, z) {
      WalkTotal(x, y);
      WalkTotal(y, z);
      if WalkBefore(y, x) { WalkTransitive(y, x, z); }
      if WalkBefore(z, y) && !WalkBefore(x, y) && !WalkBefore(y, x) { assert WalkBefore(y, z) <==> WalkBefore(x, z); }
    }
  }

  lemma WalkTransitive(x: Row, y: Row, z: Row)
    requires WalkBefore(x, y) && WalkBefore(y, z)
    ensures WalkBefore(x, z)
  {
    if TextBefore(x.tenant, y.tenant) && TextBefore(y.tenant, z.tenant) {
      TextBeforeTransitive(x.tenant, y.tenant, z.tenant);
    }
    if TextBefore(x.id, y.id) && TextBefore(y.id, z.id) {
      TextBeforeTransitive(x.id, y.id, z.id);
    }
  }

  lemma WalkTotal(x: Row, y: Row)
    ensures WalkBefore(x, y) || WalkBefore(y, x) || (x.tenant == y.tenant && x.createdAt == y.createdAt && x.id == y.id)
  {
    TextBeforeTotal(x.tenant, y.tenant);
    TextBeforeTotal(x.id, y.id);
  }

  predicate SameKeys(p: seq<Row>, q: seq<Row>) {
    |p| == |q| && forall i :: 0 <= i < |p| ==>
      p[i].tenant == q[i].tenant && p[i].createdAt == q[i].createdAt && p[i].id == q[i].id
  }

  lemma KeyedByCount(p: seq<Row>, q: seq<Row>)
    requires Keyed(p) && multiset(p) == multiset(q)
    ensures Keyed(q)
  {
    forall i, j | 0 <= i < j < |q| ensures q[i].id != q[j].id {
      TwoPlaces(p, q, i, j);
    }
  }

  lemma WalkStrict(rows: seq<Row>)
    requires Keyed(rows)
    ensures StrictlySorted(Walk(rows), WalkBefore) && multiset(Walk(rows)) == multiset(rows) && Keyed(Walk(rows))
  {
    WalkOrder();
    OrderBySorted(rows, WalkBefore);
    OrderByKeepsElements(rows, WalkBefore);
    var walk := Walk(rows);
    KeyedByCount(rows, walk);
    forall i, j | 0 <= i < j < |walk| ensures WalkBefore(walk[i], walk[j]) {
      WalkTotal(walk[i], walk[j]);
      assert !WalkBefore(walk[j], walk[i]);
    }
  }

  /** Rewriting signatures and slots does not change the walk. */
  lemma WalkIs(rows: seq<Row>, before: seq<Row>, after: seq<Row>)
    requires Keyed(before) && SameKeys(Walk(before), after) && multiset(rows) == multiset(after)
    ensures Walk(rows) == after
  {
    WalkStrict(before);
    WalkOrder();
    var walk := Walk(before);
    forall i, j | 0 <= i < j < |after| ensures WalkBefore(after[i], after[j]) {
      assert WalkBefore(walk[i], walk[j]);
    }
    OrderByIs(rows, after, WalkBefore);
  }

  lemma {:induction false} StampedSameKeys(heads: map<string, Sig>, slots: map<string, int>, walk: seq<Row>)
    ensures SameKeys(walk, Stamped(heads, slots, walk))
    decreases walk
  {
    if walk != [] {
      StampedSameKeys(HeadsAfter(heads, slots, walk[0]), SlotsAfter(slots, walk[0]), walk[1..]);
    }
  }

  // ---- Crash and restart ----

  predicate Counting(slots: map<string, int>) {
    forall t :: t in slots ==> 0 <= slots[t]
  }

  /** Stamping a stamped row again changes neither it nor what follows it. */
  lemma StampTwice(heads: map<string, Sig>, slots: map<string, int>, r: Row)
    requires Counting(slots)
    ensures var s := Stamp(r, HeadOf(heads, r.tenant), SlotOf(slots, r.tenant) + 1);
      && Stamp(s, HeadOf(heads, r.tenant), SlotOf(slots, r.tenant) + 1) == s
      && HeadsAfter(heads, slots, s) == HeadsAfter(heads, slots, r)
      && SlotsAfter(slots, s) == SlotsAfter(slots, r) && Counting(SlotsAfter(slots, r))
  {
  }

  lemma {:induction false} StampedAgain(heads: map<string, Sig>, slots: map<string, int>, x: seq<Row>, y: seq<Row>)
    requires Counting(slots)
    ensures Stamped(heads, slots, Stamped(heads, slots, x) + y) == Stamped(heads, slots, x + y)
    decreases x
  {
    if x == [] {
      assert [] + y == y && x + y == y;
    } else {
      StampTwice(heads, slots, x[0]);
      StampedAgain(HeadsAfter(heads, slots, x[0]), SlotsAfter(slots, x[0]), x[1..], y);
      AgainBehind(heads, slots, x[0], x[1..], y);
      assert x == [x[0]] + x[1..];
    }
  }

  lemma AgainBehind(heads: map<string, Sig>, slots: map<string, int>, r: Row, x: seq<Row>, y: seq<Row>)
    requires Counting(slots)
    requires var heads', slots' := HeadsAfter(heads, slots, r), SlotsAfter(slots, r);
      Stamped(heads', slots', Stamped(heads', slots', x) + y) == Stamped(heads', slots', x + y)
    ensures Stamped(heads, slots, Stamped(heads, slots, [r] + x) + y) == Stamped(heads, slots, [r] + x + y)
  {
    var s := Stamp(r, HeadOf(heads, r.tenant), SlotOf(slots, r.tenant) + 1);
    var rest := Stamped(HeadsAfter(heads, slots, r), SlotsAfter(slots, r), x);
    StampTwice(heads, slots, r);
    StampedFront(heads, slots, r, x);
    ConsConcat(s, rest, y);
    StampedFront(heads, slots, s, rest + y);
    ConsConcat(r, x, y);
    StampedFront(heads, slots, r, x + y);
  }

  lemma HalfSameKeys(walk: seq<Row>, k: nat)
    requires k <= |walk|
    ensures SameKeys(walk, Stamped(map[], map[], walk[..k]) + walk[k..])
  {
    StampedSameKeys(map[], map[], walk[..k]);
  }

  /** The walk may stop after any row, every update having committed on its own: the
      next walk over what is then stored arrives at the same rows. */
  lemma BackfillResumes(rows: seq<Row>, stopped: seq<Row>, k: nat)
    requires Keyed(rows) && k <= |Walk(rows)|
    requires multiset(stopped) == multiset(Stamped(map[], map[], Walk(rows)[..k]) + Walk(rows)[k..])
    ensures Stamped(map[], map[], Walk(stopped)) == Stamped(map[], map[], Walk(rows))
  {
    var walk := Walk(rows);
    var half := Stamped(map[], map[], walk[..k]) + walk[k..];
    HalfSameKeys(walk, k);
    WalkIs(stopped, rows, half);
    StampedAgain(map[], map[], walk[..k], walk[k..]);
    assert walk[..k] + walk[k..] == walk;
  }

  /** A table in which every row is signed and numbered is left alone, so the walk
      that runs at every start cannot disturb a live or compacted chain. */
  lemma {:induction false} StampedIsFixed(heads: map<string, Sig>, slots: map<string, int>, walk: seq<Row>)
    requires forall k :: 0 <= k < |walk| ==> !Unstamped(walk[k])
    ensures Stamped(heads, slots, walk) == walk
    decreases walk
  {
    if walk != [] {
      StampedIsFixed(HeadsAfter(heads, slots, walk[0]), SlotsAfter(slots, walk[0]), walk[1..]);
      assert walk == [walk[0]] + walk[1..];
    }
  }

  lemma BackfillFixed(rows: seq<Row>)
    requires Keyed(rows) && forall k :: 0 <= k < |rows| ==> !Unstamped(rows[k])
    ensures multiset(Stamped(map[], map[], Walk(rows))) == multiset(rows)
  {
    WalkStrict(rows);
    var walk := Walk(rows);
    forall k | 0 <= k < |walk| ensures !Unstamped(walk[k]) {
      assert walk[k] in multiset(rows);
    }
    StampedIsFixed(map[], map[], walk);
  }

  // ---- What the result verifies as ----

  /** Every signature a row came with is the one its place in the walk calls for, and
      compaction records carry an end signature. */
  predicate Trusted(h: Sig, n: int, walk: seq<Row>)
    decreases walk
  {
    walk == [] ||
    var r := Stamp(walk[0], h, n + 1);
    && (walk[0].sig == Unsigned || walk[0].sig == Mac(h, Payload(walk[0])))
    && (IsBridge(walk[0]) ==> EndSig(walk[0].details) != Unsigned)
    && Trusted(Next(r), n + 1, walk[1..])
  }

  /** The slot a row has after the walk. */
  function SlotAfter(n: int, walk: seq<Row>, i: nat): int
    requires i < |walk|
  {
    if Unstamped(walk[i]) then n + i + 1 else walk[i].seqNo
  }

  /** Slots keep the order of the walk; gaps do no harm. */
  predicate SlotsRise(walk: seq<Row>) {
    forall i, j :: 0 <= i < j < |walk| ==> SlotAfter(0, walk, i) < SlotAfter(0, walk, j)
  }

  lemma {:induction false} StampedGood(h: Sig, n: int, walk: seq<Row>)
    ensures Good(h, StampedTenant(h, n, walk)) <==> Trusted(h, n, walk)
    decreases walk
  {
    if walk != [] {
      var r := Stamp(walk[0], h, n + 1);
      assert Fields(r) == Fields(walk[0]);
      var rest := StampedTenant(Next(r), n + 1, walk[1..]);
      StampedGood(Next(r), n + 1, walk[1..]);
      Bottom(h, r, rest);
    }
  }

  lemma {:induction false} StampedSlots(h: Sig, n: int, walk: seq<Row>)
    ensures |StampedTenant(h, n, walk)| == |walk|
    ensures forall i :: 0 <= i < |walk| ==> StampedTenant(h, n, walk)[i].seqNo == SlotAfter(n, walk, i)
    decreases walk
  {
    if walk != [] {
      var r := Stamp(walk[0], h, n + 1);
      var rest := StampedTenant(Next(r), n + 1, walk[1..]);
      StampedSlots(Next(r), n + 1, walk[1..]);
      forall i | 0 <= i < |walk| ensures StampedTenant(h, n, walk)[i].seqNo == SlotAfter(n, walk, i) {
        if i > 0 {
          assert StampedTenant(h, n, walk)[i] == rest[i - 1] && walk[1..][i - 1] == walk[i];
          assert SlotAfter(n + 1, walk[1..], i - 1) == SlotAfter(n, walk, i);
        }
      }
    }
  }

  /** After the walk a tenant's chain verifies if and only if every signature that was
      there before it was right: a forged or displaced one is not papered over. */
  lemma BackfillExact(rows: seq<Row>, after: seq<Row>, tenant: string)
    requires Keyed(rows) && multiset(after) == multiset(Stamped(map[], map[], Walk(rows)))
    requires SlotsRise(ForTenant(Walk(rows), tenant))
    ensures Chain(after, tenant) == StampedTenant(Unsigned, 0, ForTenant(Walk(rows), tenant))
    ensures Verdict(Unsigned, Chain(after, tenant), 0).ok <==> Trusted(Unsigned, 0, ForTenant(Walk(rows), tenant))
  {
    var walk := ForTenant(Walk(rows), tenant);
    var chain := StampedTenant(Unsigned, 0, walk);
    SameRowsSameTenant(after, Stamped(map[], map[], Walk(rows)), tenant);
    StampedForTenant(map[], map[], Walk(rows), tenant);
    StampedSlots(Unsigned, 0, walk);
    ChainIs(after, tenant, chain);
    StampedGood(Unsigned, 0, walk);
    VerdictIffGood(Unsigned, chain, 0);
  }

  // ---- Unsigned rows above a chain ----

  /** The row hands over a signature deeper than the one it chains from. */
  predicate Lifts(r: Row) {
    r.sig.Mac? && Depth(r.sig.prev) < Depth(Next(r))
  }

  lemma {:induction false} RisingLifts(h: Sig, chain: seq<Row>)
    requires Good(h, chain)
    ensures Rising(h, chain) <==> forall r :: r in chain ==> Lifts(r)
    decreases chain
  {
    if chain != [] {
      var rest := chain[1..];
      RisingLifts(Next(chain[0]), rest);
      assert Rising(h, chain) <==> Lifts(chain[0]) && Rising(Next(chain[0]), rest);
      assert chain[0] in chain && forall r :: r in chain <==> r == chain[0] || r in rest;
    }
  }

  /** Only the bottom row chains from the head the chain starts on. */
  lemma {:induction false} ChainsFrom(h: Sig, chain: seq<Row>, i: nat)
    requires Good(h, chain) && Rising(h, chain) && i < |chain|
    ensures chain[i].sig.Mac?
    ensures if i == 0 then chain[i].sig.prev == h else Depth(h) < Depth(chain[i].sig.prev)
    decreases chain
  {
    if i > 0 { ChainsFrom(Next(chain[0]), chain[1..], i - 1); }
  }

  /** Good chains that share a head share their rows from the bottom up. */
  lemma {:induction false} GoodPrefix(h: Sig, y: seq<Row>, chain: seq<Row>)
    requires Good(h, y) && Rising(h, y) && Good(h, chain) && Rising(h, chain)
    requires forall r :: r in y ==> r in chain
    ensures y <= chain
    decreases y
  {
    if y != [] {
      assert y[0] in y;
      var q :| 0 <= q < |chain| && chain[q] == y[0];
      ChainsFrom(h, chain, q);
      forall i | 1 <= i < |y| ensures y[i] in chain[1..] {
        ChainsFrom(h, y, i);
        assert y[i] in y;
      }
      GoodPrefix(Next(y[0]), y[1..], chain[1..]);
    }
  }

  lemma OneRoot(k: Sig, rest: seq<Row>, h: Sig, ss: seq<Row>)
    requires Good(k, rest) && Rising(k, rest) && Good(h, ss) && Rising(h, ss)
    requires multiset(rest) == multiset(ss) && ss != []
    ensures k == h
  {
    assert ss[0] in multiset(rest);
    var q :| 0 <= q < |rest| && rest[q] == ss[0];
    assert rest[0] in multiset(ss);
    var j :| 0 <= j < |ss| && ss[j] == rest[0];
    ChainsFrom(k, rest, 0);
    ChainsFrom(k, rest, q);
    ChainsFrom(h, ss, 0);
    ChainsFrom(h, ss, j);
  }

  lemma TogetherRising(y: seq<Row>, h: Sig, ss: seq<Row>, chain: seq<Row>)
    requires Intact(y) && Good(h, ss) && Rising(h, ss)
    requires multiset(chain) == multiset(y + ss) && Good(Unsigned, chain)
    ensures Rising(Unsigned, chain)
  {
    RisingLifts(Unsigned, y);
    RisingLifts(h, ss);
    forall r | r in chain ensures Lifts(r) { assert r in multiset(chain); }
    RisingLifts(Unsigned, chain);
  }

  lemma SharedRows<T>(y: seq<T>, ss: seq<T>, chain: seq<T>)
    requires multiset(chain) == multiset(y + ss)
    ensures forall r :: r in y ==> r in chain
    ensures y <= chain ==> chain == y + chain[|y|..] && multiset(chain[|y|..]) == multiset(ss)
  {
    forall r | r in y ensures r in chain {
      assert r in multiset(y + ss);
      assert r in multiset(chain);
    }
    if y <= chain {
      assert chain == y + chain[|y|..];
      assert multiset(chain[|y|..]) == multiset(chain) - multiset(y);
    }
  }

  /** Whatever way two chains are put together, the result is good only if the one stands on
      the other. */
  lemma GoodTogether(y: seq<Row>, h: Sig, ss: seq<Row>, chain: seq<Row>)
    requires Intact(y) && Good(h, ss) && Rising(h, ss) && ss != []
    requires multiset(chain) == multiset(y + ss) && Good(Unsigned, chain)
    ensures y <= chain && h == Head(Unsigned, y)
  {
    TogetherRising(y, h, ss, chain);
    SharedRows(y, ss, chain);
    GoodPrefix(Unsigned, y, chain);
    IntactParts(y, chain[|y|..]);
    OneRoot(Head(Unsigned, y), chain[|y|..], h, ss);
  }

  predicate Late(rs: seq<Row>) {
    forall r :: r in rs ==> r.sig == Unsigned && !IsBridge(r)
  }

  /** Rows without signature, newer than a verified chain `y` that the walk meets in the
      order `x`: they are signed over the row walked last and get their places in the walk as
      their slots. Unless the top of the chain is walked last and holds the first of those
      slots itself, the chain verifies afterwards if and only if the row walked last is the top
      of the chain and no slot in use is above the new ones. After a compaction that left rows
      the row walked last is its record and not the top. */
  lemma BackfillOntoChain(rows: seq<Row>, after: seq<Row>, tenant: string, x: seq<Row>, y: seq<Row>, rs: seq<Row>)
    requires multiset(after) == multiset(Stamped(map[], map[], Walk(rows)))
    requires ForTenant(Walk(rows), tenant) == x + rs && rs != [] && Late(rs)
    requires multiset(x) == multiset(y) && Intact(y) && Ascending(y) && forall i :: 0 <= i < |x| ==> !Unstamped(x[i])
    requires x == [] || Last(x) != Last(y) || Last(y).seqNo != |x| + 1
    ensures Verdict(Unsigned, Chain(after, tenant), 0).ok <==> x == [] || (Last(x) == Last(y) && Last(y).seqNo <= |x|)
  {
    var ss := StampedTenant(Head(Unsigned, x), |x|, rs);
    LateRows(map[], map[], Walk(rows), after, tenant, x, rs);
    LateGood(Head(Unsigned, x), |x|, rs);
    OntoExact(after, tenant, x, y, Head(Unsigned, x), ss);
  }

  lemma OntoExact(after: seq<Row>, tenant: string, x: seq<Row>, y: seq<Row>, h: Sig, ss: seq<Row>)
    requires multiset(ForTenant(after, tenant)) == multiset(x + ss) && multiset(x) == multiset(y)
    requires Intact(y) && Ascending(y) && Good(h, ss) && Rising(h, ss) && ss != [] && h == Head(Unsigned, x)
    requires forall i :: 0 <= i < |ss| ==> ss[i].seqNo == |x| + i + 1
    requires x == [] || Last(x) != Last(y) || Last(y).seqNo != |x| + 1
    ensures Verdict(Unsigned, Chain(after, tenant), 0).ok <==> x == [] || (Last(x) == Last(y) && Last(y).seqNo <= |x|)
  {
    SameSize(x, y);
    SameBehind(x, y, ss);
    VerdictIffGood(Unsigned, Chain(after, tenant), 0);
    if Good(Unsigned, Chain(after, tenant)) {
      OntoNeeds(after, tenant, x, y, h, ss);
    } else if x == [] || (Last(x) == Last(y) && Last(y).seqNo <= |x|) {
      OntoSuffices(after, tenant, x, y, h, ss);
    }
  }

  /** What the walk leaves of the tenant's rows. */
  lemma LateRows(heads: map<string, Sig>, slots: map<string, int>, walk: seq<Row>, after: seq<Row>, tenant: string,
                 x: seq<Row>, rs: seq<Row>)
    requires tenant !in heads && tenant !in slots && multiset(after) == multiset(Stamped(heads, slots, walk))
    requires ForTenant(walk, tenant) == x + rs && forall i :: 0 <= i < |x| ==> !Unstamped(x[i])
    ensures multiset(ForTenant(after, tenant)) == multiset(x + StampedTenant(Head(Unsigned, x), |x|, rs))
  {
    StampedForTenant(heads, slots, walk, tenant);
    RowsOnTop(Stamped(heads, slots, walk), after, tenant, x, rs, Unsigned, 0);
  }

  lemma RowsOnTop(stamped: seq<Row>, after: seq<Row>, tenant: string, x: seq<Row>, rs: seq<Row>, h: Sig, n: int)
    requires multiset(after) == multiset(stamped) && ForTenant(stamped, tenant) == StampedTenant(h, n, x + rs)
    requires forall i :: 0 <= i < |x| ==> !Unstamped(x[i])
    ensures multiset(ForTenant(after, tenant)) == multiset(x + StampedTenant(Head(h, x), n + |x|, rs))
  {
    SameRowsSameTenant(after, stamped, tenant);
    StampedOnTop(h, n, x, rs);
  }

  lemma {:induction false} StampedOnTop(h: Sig, n: int, x: seq<Row>, rs: seq<Row>)
    requires forall i :: 0 <= i < |x| ==> !Unstamped(x[i])
    ensures StampedTenant(h, n, x + rs) == x + StampedTenant(Head(h, x), n + |x|, rs)
    decreases x
  {
    if x == [] {
      assert x + rs == rs;
    } else {
      assert (x + rs)[0] == x[0] && (x + rs)[1..] == x[1..] + rs;
      StampedOnTop(Next(x[0]), n + 1, x[1..], rs);
      assert x == [x[0]] + x[1..];
    }
  }

  lemma LateGood(h: Sig, n: int, rs: seq<Row>)
    requires Late(rs)
    ensures var ss := StampedTenant(h, n, rs); Good(h, ss) && Rising(h, ss) && |ss| == |rs|
    ensures var ss := StampedTenant(h, n, rs); forall i :: 0 <= i < |ss| ==> ss[i].seqNo == n + i + 1
  {
    FreshTrusted(h, n, rs);
    StampedGood(h, n, rs);
    StampedSlots(h, n, rs);
    forall i | 0 <= i < |rs| ensures SlotAfter(n, rs, i) == n + i + 1 { assert rs[i] in rs; }
  }

  lemma SameBehind(x: seq<Row>, y: seq<Row>, ss: seq<Row>)
    requires multiset(x) == multiset(y)
    ensures multiset(x + ss) == multiset(y + ss)
  {
  }

  lemma OntoNeeds(after: seq<Row>, tenant: string, x: seq<Row>, y: seq<Row>, h: Sig, ss: seq<Row>)
    requires multiset(ForTenant(after, tenant)) == multiset(y + ss) && multiset(x) == multiset(y) && |x| == |y|
    requires Intact(y) && Good(h, ss) && Rising(h, ss) && ss != [] && h == Head(Unsigned, x)
    requires forall i :: 0 <= i < |ss| ==> ss[i].seqNo == |x| + i + 1
    requires Good(Unsigned, Chain(after, tenant))
    ensures x == [] || (Last(x) == Last(y) && Last(y).seqNo <= |x| + 1)
  {
    var chain := Chain(after, tenant);
    ChainSorted(after, tenant);
    GoodTogether(y, h, ss, chain);
    if x != [] {
      WalkedLast(x, y);
      TopBelow(y, ss, chain);
    }
  }

  lemma ChainSorted(rows: seq<Row>, tenant: string)
    ensures multiset(Chain(rows, tenant)) == multiset(ForTenant(rows, tenant)) && Sorted(Chain(rows, tenant), SeqBefore)
  {
    SeqOrder();
    OrderByKeepsElements(ForTenant(rows, tenant), SeqBefore);
    OrderBySorted(ForTenant(rows, tenant), SeqBefore);
  }

  lemma TopBelow(y: seq<Row>, ss: seq<Row>, chain: seq<Row>)
    requires y != [] && ss != [] && y <= chain && multiset(chain) == multiset(y + ss) && Sorted(chain, SeqBefore)
    ensures Last(y).seqNo <= ss[0].seqNo
  {
    var rest := chain[|y|..];
    SharedRows(y, ss, chain);
    assert ss[0] in multiset(rest);
    var q :| 0 <= q < |rest| && rest[q] == ss[0];
    assert chain[|y| - 1] == Last(y) && chain[|y| + q] == ss[0];
    assert !SeqBefore(ss[0], Last(y));
  }

  lemma OntoSuffices(after: seq<Row>, tenant: string, x: seq<Row>, y: seq<Row>, h: Sig, ss: seq<Row>)
    requires multiset(ForTenant(after, tenant)) == multiset(y + ss) && multiset(x) == multiset(y) && |x| == |y|
    requires Intact(y) && Ascending(y) && Good(h, ss) && h == Head(Unsigned, x)
    requires forall i :: 0 <= i < |ss| ==> ss[i].seqNo == |x| + i + 1
    requires x == [] || (Last(x) == Last(y) && Last(y).seqNo <= |x|)
    ensures Good(Unsigned, Chain(after, tenant))
  {
    if x != [] { WalkedLast(x, y); }
    forall i | 0 <= i < |y| ensures y[i].seqNo <= |x| {
      if i < |y| - 1 { assert y[i].seqNo < y[|y| - 1].seqNo; }
    }
    ChainIs(after, tenant, y + ss);
    GoodConcat(Unsigned, y, ss);
  }

  lemma WalkedLast(x: seq<Row>, y: seq<Row>)
    requires multiset(x) == multiset(y) && Intact(y) && x != [] && y != []
    ensures Head(Unsigned, x) == Head(Unsigned, y) <==> Last(x) == Last(y)
  {
    HeadOfLast(Unsigned, x);
    assert Last(x) in multiset(y);
    TopHead(y, Last(x));
  }

  /** In an intact chain only the top row hands over the head of the chain. */
  lemma TopHead(y: seq<Row>, r: Row)
    requires Intact(y) && r in y
    ensures Next(r) == Head(Unsigned, y) <==> r == Last(y)
  {
    HeadOfLast(Unsigned, y);
    var i :| 0 <= i < |y| && y[i] == r;
    if i < |y| - 1 {
      assert y == y[..i + 1] + y[i + 1..];
      IntactParts(y[..i + 1], y[i + 1..]);
      HeadOfLast(Unsigned, y[..i + 1]);
      RisingDeepens(Head(Unsigned, y[..i + 1]), y[i + 1..]);
    }
  }

  /** Rows from before the chain existed always end up verified, and intact for every
      later append and compaction. */
  lemma LegacyBackfillVerifies(rows: seq<Row>, after: seq<Row>, tenant: string)
    requires Keyed(rows) && multiset(after) == multiset(Stamped(map[], map[], Walk(rows)))
    requires forall r :: r in rows ==> r.sig == Unsigned && r.seqNo == 0 && !IsBridge(r)
    ensures Intact(Chain(after, tenant))
  {
    WalkStrict(rows);
    var walk := ForTenant(Walk(rows), tenant);
    forall r | r in walk ensures r.sig == Unsigned && r.seqNo == 0 && !IsBridge(r) {
      ForTenantCount(Walk(rows), tenant, r);
      assert r in multiset(walk);
      assert r in multiset(rows);
    }
    BackfillExact(rows, after, tenant);
    FreshTrusted(Unsigned, 0, walk);
    VerdictIffGood(Unsigned, Chain(after, tenant), 0);
  }

  lemma {:induction false} FreshTrusted(h: Sig, n: int, walk: seq<Row>)
    requires forall r :: r in walk ==> r.sig == Unsigned && !IsBridge(r)
    ensures Trusted(h, n, walk) && Rising(h, StampedTenant(h, n, walk))
    decreases walk
  {
    if walk != [] {
      var r := Stamp(walk[0], h, n + 1);
      assert walk[0] in walk;
      FreshTrusted(Next(r), n + 1, walk[1..]);
      BridgeSigDeeper(h, walk[0]);
      Bottom(h, r, StampedTenant(Next(r), n + 1, walk[1..]));
    }
  }
}
