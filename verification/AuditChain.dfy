/** One tenant's chain in chain_seq order: what the verifier accepts, and what
    appending, altering, deleting and compacting do to its verdict. */
module AuditChain {
  import opened Sequences
  import opened AuditRecord

  /** The signature the row after `r` chains from: the stored end signature of a
      compaction record, otherwise the row's own signature. */
  function Next(r: Row): Sig {
    if IsBridge(r) && EndSig(r.details) != Unsigned then EndSig(r.details) else r.sig
  }

  function Head(h: Sig, chain: seq<Row>): Sig
    decreases chain
  {
    if chain == [] then h else Head(Next(chain[0]), chain[1..])
  }

  predicate Links(h: Sig, r: Row) {
    r.sig == Mac(h, Payload(r)) && (IsBridge(r) ==> EndSig(r.details) != Unsigned)
  }

  /** Every row is signed over its predecessor's head and every compaction record
      carries the signature it bridges to. */
  predicate Good(h: Sig, chain: seq<Row>)
    decreases chain
  {
    chain == [] || (Links(h, chain[0]) && Good(Next(chain[0]), chain[1..]))
  }

  /** Each row moves the head strictly deeper, a compaction record included. */
  predicate Rising(h: Sig, chain: seq<Row>)
    decreases chain
  {
    chain == [] || (Depth(h) < Depth(Next(chain[0])) && Rising(Next(chain[0]), chain[1..]))
  }

  /** What the writers keep of a whole chain. */
  predicate Intact(chain: seq<Row>) {
    Good(Unsigned, chain) && Rising(Unsigned, chain)
  }

  // ---- The verifier's report ----

  datatype Reason = None | MissingSignature | SignatureMismatch | MissingEndSig

  datatype Report = Report(ok: bool, total: nat, verified: nat, firstBad: string, reason: Reason)

  /** The report on `chain` when `done` rows were accepted before it. */
  function Verdict(h: Sig, chain: seq<Row>, done: nat): Report
    decreases chain
  {
    if chain == [] then Report(true, done, done, "", None)
    else
      var r := chain[0];
      if r.sig == Unsigned then Report(false, done + 1, done, r.id, MissingSignature)
      else if r.sig != Mac(h, Payload(r)) then Report(false, done + 1, done, r.id, SignatureMismatch)
      else if IsBridge(r) && EndSig(r.details) == Unsigned then
        Report(false, done + 1, done + 1, r.id, MissingEndSig)
      else Verdict(Next(r), chain[1..], done + 1)
  }

  /** OK means exactly that the whole chain is good, and then every row counts as
      verified. */
  lemma {:induction false} VerdictIffGood(h: Sig, chain: seq<Row>, done: nat)
    ensures Verdict(h, chain, done).ok <==> Good(h, chain)
    ensures Good(h, chain) ==> Verdict(h, chain, done) == Report(true, done + |chain|, done + |chain|, "", None)
    decreases chain
  {
    if chain != [] { VerdictIffGood(Next(chain[0]), chain[1..], done + 1); }
  }

  /** A bad row is named with the number of rows before it, and nothing after it
      is looked at. */
  lemma {:induction false} VerdictStopsAt(h: Sig, before: seq<Row>, bad: Row, after: seq<Row>, done: nat)
    requires Good(h, before) && !Links(Head(h, before), bad)
    ensures var v := Verdict(h, before + [bad] + after, done);
      && !v.ok && v.firstBad == bad.id && v.total == done + |before| + 1
      && (v.reason == MissingSignature <==> bad.sig == Unsigned)
      && (v.reason == SignatureMismatch <==> bad.sig != Unsigned && bad.sig != Mac(Head(h, before), Payload(bad)))
      && (v.reason == MissingEndSig <==> bad.sig == Mac(Head(h, before), Payload(bad)))
      && v.verified == done + |before| + (if v.reason == MissingEndSig then 1 else 0)
    decreases before
  {
    var chain := before + [bad] + after;
    if before != [] {
      assert chain[0] == before[0];
      assert chain[1..] == before[1..] + [bad] + after;
      VerdictStopsAt(Next(before[0]), before[1..], bad, after, done + 1);
    }
  }

  // ---- Concatenation ----

  lemma {:induction false} HeadConcat(h: Sig, a: seq<Row>, b: seq<Row>)
    ensures Head(h, a + b) == Head(Head(h, a), b)
    decreases a
  {
    if a == [] {
      assert a + b == b;
    } else {
      assert (a + b)[1..] == a[1..] + b;
      HeadConcat(Next(a[0]), a[1..], b);
    }
  }

  lemma {:induction false} GoodConcat(h: Sig, a: seq<Row>, b: seq<Row>)
    ensures Good(h, a + b) <==> Good(h, a) && Good(Head(h, a), b)
    decreases a
  {
    if a == [] {
      assert a + b == b;
    } else {
      assert (a + b)[1..] == a[1..] + b;
      GoodConcat(Next(a[0]), a[1..], b);
    }
  }

  lemma {:induction false} RisingConcat(h: Sig, a: seq<Row>, b: seq<Row>)
    ensures Rising(h, a + b) <==> Rising(h, a) && Rising(Head(h, a), b)
    decreases a
  {
    if a == [] {
      assert a + b == b;
    } else {
      assert (a + b)[1..] == a[1..] + b;
      RisingConcat(Next(a[0]), a[1..], b);
    }
  }

  /** One row in front of a chain. */
  lemma Bottom(h: Sig, r: Row, c: seq<Row>)
    ensures Good(h, [r] + c) <==> Links(h, r) && Good(Next(r), c)
    ensures Rising(h, [r] + c) <==> Depth(h) < Depth(Next(r)) && Rising(Next(r), c)
    ensures Head(h, [r] + c) == Head(Next(r), c)
  {
  }

  /** One row on top of a chain. */
  lemma Top(h: Sig, a: seq<Row>, r: Row)
    ensures Good(h, a + [r]) <==> Good(h, a) && Links(Head(h, a), r)
    ensures Rising(h, a + [r]) <==> Rising(h, a) && Depth(Head(h, a)) < Depth(Next(r))
    ensures Head(h, a + [r]) == Next(r)
  {
    GoodConcat(h, a, [r]);
    RisingConcat(h, a, [r]);
    HeadConcat(h, a, [r]);
    assert [r] == [r] + [];
    Bottom(Head(h, a), r, []);
  }

  lemma HeadOfLast(h: Sig, a: seq<Row>)
    requires a != []
    ensures Head(h, a) == Next(a[|a| - 1])
  {
    assert a == a[..|a| - 1] + [a[|a| - 1]];
    Top(h, a[..|a| - 1], a[|a| - 1]);
  }

  lemma {:induction false} RisingDeepens(h: Sig, a: seq<Row>)
    requires Rising(h, a)
    ensures Depth(h) <= Depth(Head(h, a))
    ensures a != [] ==> Depth(h) < Depth(Head(h, a))
    decreases a
  {
    if a != [] { RisingDeepens(Next(a[0]), a[1..]); }
  }

  /** A good suffix accepts exactly one head. */
  lemma GoodFromOneHead(h: Sig, k: Sig, c: seq<Row>)
    requires Good(h, c)
    ensures Good(k, c) <==> c == [] || h == k
  {
  }

  // ---- Appending ----

  /** A draft signed over a head. */
  function Sign(h: Sig, draft: Row): Row {
    draft.(sig := Mac(h, Payload(draft)))
  }

  lemma SignLinks(h: Sig, draft: Row)
    ensures Sign(h, draft).sig == Mac(h, Payload(Sign(h, draft)))
    ensures Links(h, Sign(h, draft)) <==> !IsBridge(draft) || EndSig(draft.details) != Unsigned
  {
  }

  function NewRow(chain: seq<Row>, draft: Row): Row {
    var seqNo := if chain == [] then 0 else chain[|chain| - 1].seqNo;
    Sign(LastHead(chain), draft.(seqNo := seqNo + 1))
  }

  /** The head a writer loads: the rule of the last row alone. */
  function LastHead(chain: seq<Row>): Sig {
    if chain == [] then Unsigned else Next(chain[|chain| - 1])
  }

  /** An appended row keeps the verdict unless it claims to be a compaction record
      and carries no end signature. */
  lemma AppendExact(chain: seq<Row>, draft: Row)
    requires Good(Unsigned, chain)
    ensures Good(Unsigned, chain + [NewRow(chain, draft)]) <==> !IsBridge(draft) || EndSig(draft.details) != Unsigned
  {
    if chain != [] { HeadOfLast(Unsigned, chain); }
    var r := NewRow(chain, draft);
    Top(Unsigned, chain, r);
    SignLinks(LastHead(chain), draft.(seqNo := r.seqNo));
  }

  lemma AppendIntact(chain: seq<Row>, draft: Row)
    requires Intact(chain) && !IsBridge(draft)
    ensures Intact(chain + [NewRow(chain, draft)])
  {
    if chain != [] { HeadOfLast(Unsigned, chain); }
    var r := NewRow(chain, draft);
    Top(Unsigned, chain, r);
    SignLinks(LastHead(chain), draft.(seqNo := r.seqNo));
    BridgeSigDeeper(LastHead(chain), r);
  }

  // ---- Altering and deleting ----

  /** Changing a row in place and keeping its signature, exactly: the verifier accepts it if
      and only if the payload is the same, a compaction record keeps an end signature, and
      the head handed to a row above is the same. */
  lemma AlterationExact(a: seq<Row>, r: Row, altered: Row, c: seq<Row>)
    requires Good(Unsigned, a + [r] + c) && altered.sig == r.sig
    ensures Good(Unsigned, a + [altered] + c) <==>
      && Payload(altered) == Payload(r)
      && (IsBridge(altered) ==> EndSig(altered.details) != Unsigned)
      && (c == [] || Next(altered) == Next(r))
  {
    assert a + [r] + c == a + ([r] + c) && a + [altered] + c == a + ([altered] + c);
    GoodConcat(Unsigned, a, [r] + c);
    GoodConcat(Unsigned, a, [altered] + c);
    Bottom(Head(Unsigned, a), r, c);
    Bottom(Head(Unsigned, a), altered, c);
    GoodFromOneHead(Next(r), Next(altered), c);
  }

  /** An altered payload is reported at that very row. */
  lemma AlterationCaught(a: seq<Row>, r: Row, altered: Row, c: seq<Row>)
    requires Good(Unsigned, a + [r] + c) && altered.sig == r.sig && Payload(altered) != Payload(r)
    ensures var v := Verdict(Unsigned, a + [altered] + c, 0);
      !v.ok && v.firstBad == altered.id && v.verified == |a| && v.reason == SignatureMismatch
  {
    assert a + [r] + c == a + ([r] + c);
    GoodConcat(Unsigned, a, [r] + c);
    VerdictStopsAt(Unsigned, a, altered, c, 0);
  }

  /** An edit that moves text across a bar, from the details to the address, keeps
      the payload, and the verifier accepts the edited chain. */
  lemma BarShiftAccepted(a: seq<Row>, r: Row, c: seq<Row>, x: string, y: string, z: string)
    requires r.details == Plain(x + "|" + y) && r.ip == z && !IsBridge(r) && Good(Unsigned, a + [r] + c)
    ensures Good(Unsigned, a + [r.(details := Plain(x), ip := y + "|" + z)] + c)
    ensures r.(details := Plain(x), ip := y + "|" + z) != r
  {
    var e := r.(details := Plain(x), ip := y + "|" + z);
    BarShiftKeepsPayload(r, x, y, z);
    assert r.(details := Plain(x + "|" + y), ip := z) == r;
    assert a + [r] + c == a + ([r] + c) && a + [e] + c == a + ([e] + c);
    GoodConcat(Unsigned, a, [r] + c);
    GoodConcat(Unsigned, a, [e] + c);
    assert ([r] + c)[1..] == c && ([e] + c)[1..] == c;
    assert |x| < |x + "|" + y|;
  }

  /** Deleting the rows `b` and bridging nothing is accepted exactly when nothing
      follows them or they did not move the head. */
  lemma DeletionExact(a: seq<Row>, b: seq<Row>, c: seq<Row>)
    requires Good(Unsigned, a + b + c)
    ensures Good(Unsigned, a + c) <==> c == [] || Head(Unsigned, a) == Head(Unsigned, a + b)
  {
    GoodConcat(Unsigned, a + b, c);
    GoodConcat(Unsigned, a, b);
    GoodConcat(Unsigned, a, c);
    GoodFromOneHead(Head(Unsigned, a + b), Head(Unsigned, a), c);
  }

  /** On a chain that only the writers touched, a deletion with a survivor above it
      is reported at that survivor. */
  lemma DeletionCaught(a: seq<Row>, b: seq<Row>, s: Row, c: seq<Row>)
    requires Intact(a + b + ([s] + c)) && b != []
    ensures var v := Verdict(Unsigned, a + [s] + c, 0);
      !v.ok && v.firstBad == s.id && v.verified == |a| && v.reason == SignatureMismatch
  {
    IntactParts(a + b, [s] + c);
    IntactParts(a, b);
    RisingDeepens(Head(Unsigned, a), b);
    Bottom(Head(Unsigned, a + b), s, c);
    OneHeadLinks(Head(Unsigned, a), Head(Unsigned, a + b), s);
    VerdictStopsAt(Unsigned, a, s, c, 0);
  }

  lemma OneHeadLinks(h: Sig, k: Sig, r: Row)
    requires Links(k, r) && h != k
    ensures !Links(h, r) && r.sig != Unsigned && r.sig != Mac(h, Payload(r))
  {
  }

  // ---- Compaction ----

  /** Which signature a compactor takes from a row: the one stored on it, or the
      head after it, the rule that the appender and the verifier follow. */
  datatype Rule = OwnSignature | ChainHead

  function TailSig(rule: Rule, r: Row): Sig {
    match rule
    case OwnSignature => r.sig
    case ChainHead => Next(r)
  }

  predicate Old(r: Row, cutoff: int) {
    r.createdAt < cutoff
  }

  function Selected(chain: seq<Row>, cutoff: int): seq<Row> {
    if chain == [] then []
    else if Old(chain[0], cutoff) then [chain[0]] + Selected(chain[1..], cutoff)
    else Selected(chain[1..], cutoff)
  }

  function Kept(chain: seq<Row>, cutoff: int): seq<Row> {
    if chain == [] then []
    else if Old(chain[0], cutoff) then Kept(chain[1..], cutoff)
    else [chain[0]] + Kept(chain[1..], cutoff)
  }

  predicate AllOld(chain: seq<Row>, cutoff: int) {
    forall k :: 0 <= k < |chain| ==> Old(chain[k], cutoff)
  }

  predicate NoneOld(chain: seq<Row>, cutoff: int) {
    forall k :: 0 <= k < |chain| ==> !Old(chain[k], cutoff)
  }

  /** A chain is cut at its old rows: what lies below the first, the stretch from the
      first to the last, what lies above the last. */
  function Below(chain: seq<Row>, cutoff: int): seq<Row> {
    if chain == [] || Old(chain[0], cutoff) then [] else [chain[0]] + Below(chain[1..], cutoff)
  }

  function FromOld(chain: seq<Row>, cutoff: int): seq<Row> {
    if chain == [] || Old(chain[0], cutoff) then chain else FromOld(chain[1..], cutoff)
  }

  function YoungSuffix(x: seq<Row>, cutoff: int): seq<Row> {
    if x == [] || Old(x[|x| - 1], cutoff) then [] else YoungSuffix(x[..|x| - 1], cutoff) + [x[|x| - 1]]
  }

  function UpToOld(x: seq<Row>, cutoff: int): seq<Row> {
    if x == [] || Old(x[|x| - 1], cutoff) then x else UpToOld(x[..|x| - 1], cutoff)
  }

  predicate HasOld(chain: seq<Row>, cutoff: int) {
    FromOld(chain, cutoff) != []
  }

  function Above(chain: seq<Row>, cutoff: int): seq<Row> {
    YoungSuffix(FromOld(chain, cutoff), cutoff)
  }

  function Stretch(chain: seq<Row>, cutoff: int): (b: seq<Row>)
    requires HasOld(chain, cutoff)
    ensures b != []
  {
    FromOldParts(chain, cutoff);
    SuffixParts(FromOld(chain, cutoff), cutoff);
    UpToOld(FromOld(chain, cutoff), cutoff)
  }

  lemma {:induction false} FromOldParts(chain: seq<Row>, cutoff: int)
    ensures var a, x := Below(chain, cutoff), FromOld(chain, cutoff);
      a + x == chain && NoneOld(a, cutoff) && (x != [] ==> Old(x[0], cutoff))
  {
    if chain != [] && !Old(chain[0], cutoff) {
      FromOldParts(chain[1..], cutoff);
      ConsConcat(chain[0], Below(chain[1..], cutoff), FromOld(chain[1..], cutoff));
    }
  }

  lemma {:induction false} SuffixParts(x: seq<Row>, cutoff: int)
    ensures var b, c := UpToOld(x, cutoff), YoungSuffix(x, cutoff);
      b + c == x && NoneOld(c, cutoff) && (b != [] ==> Old(b[|b| - 1], cutoff))
      && (x != [] && Old(x[0], cutoff) ==> b != [] && b[0] == x[0])
  {
    if x != [] && !Old(x[|x| - 1], cutoff) {
      SuffixParts(x[..|x| - 1], cutoff);
      TakeLast(x);
      Regroup(UpToOld(x[..|x| - 1], cutoff), YoungSuffix(x[..|x| - 1], cutoff), [x[|x| - 1]]);
    }
  }

  lemma CutParts(chain: seq<Row>, cutoff: int)
    requires HasOld(chain, cutoff)
    ensures var a, b, c := Below(chain, cutoff), Stretch(chain, cutoff), Above(chain, cutoff);
      && a + b + c == chain && NoneOld(a, cutoff) && NoneOld(c, cutoff)
      && Old(b[0], cutoff) && Old(b[|b| - 1], cutoff)
  {
    FromOldParts(chain, cutoff);
    SuffixParts(FromOld(chain, cutoff), cutoff);
    Regroup(Below(chain, cutoff), Stretch(chain, cutoff), Above(chain, cutoff));
  }

  /** The cut is the only one with young outer parts and old ends. */
  lemma CutIs(a: seq<Row>, b: seq<Row>, c: seq<Row>, cutoff: int)
    requires NoneOld(a, cutoff) && NoneOld(c, cutoff)
    requires b != [] && Old(b[0], cutoff) && Old(b[|b| - 1], cutoff)
    ensures var chain := a + b + c;
      HasOld(chain, cutoff) && Below(chain, cutoff) == a && Stretch(chain, cutoff) == b && Above(chain, cutoff) == c
  {
    assert a + b + c == a + (b + c);
    BelowIs(a, b + c, cutoff);
    SuffixIs(b, c, cutoff);
  }

  lemma {:induction false} BelowIs(a: seq<Row>, x: seq<Row>, cutoff: int)
    requires NoneOld(a, cutoff) && x != [] && Old(x[0], cutoff)
    ensures Below(a + x, cutoff) == a && FromOld(a + x, cutoff) == x
  {
    if a == [] {
      assert a + x == x;
    } else {
      assert (a + x)[1..] == a[1..] + x;
      BelowIs(a[1..], x, cutoff);
    }
  }

  lemma {:induction false} SuffixIs(b: seq<Row>, c: seq<Row>, cutoff: int)
    requires NoneOld(c, cutoff) && b != [] && Old(b[|b| - 1], cutoff)
    ensures YoungSuffix(b + c, cutoff) == c && UpToOld(b + c, cutoff) == b
  {
    if c == [] {
      assert b + c == b;
    } else {
      var front, last := c[..|c| - 1], c[|c| - 1];
      assert (b + c)[..|b + c| - 1] == b + front;
      SuffixIs(b, front, cutoff);
    }
  }

  /** The guard on a cut that is already known. */
  lemma BridgeableParts(a: seq<Row>, b: seq<Row>, c: seq<Row>, cutoff: int)
    requires NoneOld(a, cutoff) && NoneOld(c, cutoff)
    requires b != [] && Old(b[0], cutoff) && Old(b[|b| - 1], cutoff)
    ensures Bridgeable(a + b + c, cutoff) <==>
      AllOld(b, cutoff) && (a == [] || !IsBridge(a[|a| - 1])) && (c == [] || !IsBridge(b[|b| - 1]))
  {
    CutIs(a, b, c, cutoff);
  }

  lemma NothingOld(chain: seq<Row>, cutoff: int)
    ensures HasOld(chain, cutoff) <==> !NoneOld(chain, cutoff)
  {
    FromOldParts(chain, cutoff);
    if HasOld(chain, cutoff) {
      assert chain[|Below(chain, cutoff)|] == FromOld(chain, cutoff)[0];
    }
  }

  /** What a compactor signs over: nothing at the bottom of the chain, otherwise what
      its rule takes from the row below. */
  function SigBelow(rule: Rule, a: seq<Row>): Sig {
    if a == [] then Unsigned else TailSig(rule, a[|a| - 1])
  }

  /** The bridging record over a stretch `b` above the rows `a`. */
  function BridgeRow(rule: Rule, a: seq<Row>, b: seq<Row>, count: nat, tenant: string, cutoff: int, id: string,
                     now: int): Row
    requires b != []
  {
    var last := b[|b| - 1];
    var bridge := Bridge(b[0].id, last.id, count, TailSig(rule, last), cutoff);
    Sign(SigBelow(rule, a),
         Row(id, tenant, "system", COMPACTION_ACTION, "audit_log", "", Compacted(bridge), "", now, Unsigned,
           b[0].seqNo))
  }

  /** The chain a compaction leaves: the record takes the slot of the first old row
      and the younger rows stay. */
  function CompactedChain(rule: Rule, chain: seq<Row>, tenant: string, cutoff: int, id: string, now: int): seq<Row> {
    if !HasOld(chain, cutoff) then chain
    else
      var a, b, c := Below(chain, cutoff), Stretch(chain, cutoff), Above(chain, cutoff);
      a + [BridgeRow(rule, a, b, |Selected(chain, cutoff)|, tenant, cutoff, id, now)] + Kept(b, cutoff) + c
  }

  /** The guard a caller can evaluate first: nothing is old, or the old rows are
      one stretch that neither follows a compaction record nor ends in one that has
      a survivor above it. */
  predicate Bridgeable(chain: seq<Row>, cutoff: int) {
    !HasOld(chain, cutoff) ||
    var a, b, c := Below(chain, cutoff), Stretch(chain, cutoff), Above(chain, cutoff);
    && AllOld(b, cutoff)
    && (a == [] || !IsBridge(a[|a| - 1]))
    && (c == [] || !IsBridge(b[|b| - 1]))
  }

  /** The old rows occupy one unbroken stretch of the chain. */
  predicate Contiguous(chain: seq<Row>, cutoff: int) {
    !HasOld(chain, cutoff) || AllOld(Stretch(chain, cutoff), cutoff)
  }

  lemma {:induction false} KeptConcat(a: seq<Row>, b: seq<Row>, cutoff: int)
    ensures Kept(a + b, cutoff) == Kept(a, cutoff) + Kept(b, cutoff)
  {
    if a == [] {
      assert a + b == b;
    } else {
      assert (a + b)[1..] == a[1..] + b;
      KeptConcat(a[1..], b, cutoff);
    }
  }

  lemma {:induction false} KeptOfOld(chain: seq<Row>, cutoff: int)
    requires AllOld(chain, cutoff)
    ensures Kept(chain, cutoff) == []
  {
    if chain != [] { KeptOfOld(chain[1..], cutoff); }
  }

  lemma {:induction false} KeptOfYoung(chain: seq<Row>, cutoff: int)
    requires NoneOld(chain, cutoff)
    ensures Kept(chain, cutoff) == chain
  {
    if chain != [] {
      KeptOfYoung(chain[1..], cutoff);
      assert chain == [chain[0]] + chain[1..];
    }
  }

  /** The rows a compaction leaves apart from its record are the younger ones. */
  lemma KeptParts(chain: seq<Row>, cutoff: int)
    requires HasOld(chain, cutoff)
    ensures Kept(chain, cutoff) == Below(chain, cutoff) + Kept(Stretch(chain, cutoff), cutoff) + Above(chain, cutoff)
  {
    var a, b, c := Below(chain, cutoff), Stretch(chain, cutoff), Above(chain, cutoff);
    CutParts(chain, cutoff);
    KeptConcat(a + b, c, cutoff);
    KeptConcat(a, b, cutoff);
    KeptOfYoung(a, cutoff);
    KeptOfYoung(c, cutoff);
  }

  /** Every prefix of an intact chain is intact, and what follows continues it. */
  lemma IntactParts(a: seq<Row>, b: seq<Row>)
    requires Intact(a + b)
    ensures Intact(a) && Good(Head(Unsigned, a), b) && Rising(Head(Unsigned, a), b)
    ensures Head(Unsigned, a + b) == Head(Head(Unsigned, a), b)
    ensures Depth(Head(Unsigned, a)) <= Depth(Head(Unsigned, a + b))
  {
    GoodConcat(Unsigned, a, b);
    RisingConcat(Unsigned, a, b);
    HeadConcat(Unsigned, a, b);
    RisingDeepens(Head(Unsigned, a), b);
  }

  /** The last row of an intact chain: both signatures a compactor might take from it
      lie deeper than the head below it, and they differ on a compaction record. */
  lemma LastOfIntact(a: seq<Row>, r: Row)
    requires Intact(a + [r])
    ensures Depth(Head(Unsigned, a)) < Depth(r.sig) && Depth(Head(Unsigned, a)) < Depth(Next(r))
    ensures IsBridge(r) <==> r.sig != Next(r)
    ensures Head(Unsigned, a + [r]) == Next(r)
  {
    Top(Unsigned, a, r);
    BridgeSigDeeper(Head(Unsigned, a), r);
  }

  /** Replacing the stretch by any record: the record has to link to the head below
      and to hand over the head above, and what is not the stretch's last row decides
      which head that is. */
  lemma SpliceExact(a: seq<Row>, cr: Row, b: seq<Row>, c: seq<Row>)
    requires Good(Unsigned, a + b + c)
    ensures Good(Unsigned, a + [cr] + c) <==>
      Links(Head(Unsigned, a), cr) && (c == [] || Next(cr) == Head(Unsigned, a + b))
  {
    GoodConcat(Unsigned, a + b, c);
    GoodConcat(Unsigned, a, b);
    GoodConcat(Unsigned, a + [cr], c);
    Top(Unsigned, a, cr);
    GoodFromOneHead(Head(Unsigned, a + b), Next(cr), c);
  }

  /** What the compactor's record links to and hands over. */
  lemma RecordOf(rule: Rule, a: seq<Row>, b: seq<Row>, count: nat, tenant: string, cutoff: int, id: string, now: int)
    requires b != [] && Intact(a + b)
    ensures var cr := BridgeRow(rule, a, b, count, tenant, cutoff, id, now);
      && IsBridge(cr) && Next(cr) == TailSig(rule, b[|b| - 1]) && cr.seqNo == b[0].seqNo && cr.id == id
      && Depth(Head(Unsigned, a + b[..|b| - 1])) < Depth(Next(cr))
      && (Links(Head(Unsigned, a), cr) <==> SigBelow(rule, a) == Head(Unsigned, a))
  {
    var last := b[|b| - 1];
    assert a + b == a + b[..|b| - 1] + [last];
    LastOfIntact(a + b[..|b| - 1], last);
    var bridge := Bridge(b[0].id, last.id, count, TailSig(rule, last), cutoff);
    SignLinks(SigBelow(rule, a),
      Row(id, tenant, "system", COMPACTION_ACTION, "audit_log", "", Compacted(bridge), "", now, Unsigned, b[0].seqNo));
  }

  lemma {:induction false} SigBelowIsHead(rule: Rule, a: seq<Row>)
    requires Intact(a)
    ensures SigBelow(rule, a) == Head(Unsigned, a) <==> a == [] || rule.ChainHead? || !IsBridge(a[|a| - 1])
  {
    if a != [] {
      TakeLast(a);
      LastOfIntact(a[..|a| - 1], a[|a| - 1]);
    }
  }

  /** A record whose range has a survivor `s` inside it is never followed correctly:
      it points deeper than the survivor's own predecessor. */
  lemma GapBreaks(a: seq<Row>, s: Row, inner: seq<Row>, last: Row, cr: Row, rest: seq<Row>)
    requires Intact(a + [s] + inner + [last])
    requires Depth(Head(Unsigned, a + [s] + inner)) < Depth(Next(cr))
    ensures forall below :: !Good(Unsigned, below + [cr] + ([s] + rest))
  {
    Top(Unsigned, a + [s] + inner, last);
    IntactParts(a + [s], inner);
    Top(Unsigned, a, s);
    forall below ensures !Good(Unsigned, below + [cr] + ([s] + rest)) {
      GoodConcat(Unsigned, below + [cr], [s] + rest);
      Top(Unsigned, below, cr);
      Bottom(Next(cr), s, rest);
    }
  }

  /** A stretch that is not all old has a first survivor, and the kept rows start
      with it. */
  lemma {:induction false} FirstYoung(b: seq<Row>, cutoff: int) returns (m: nat)
    requires !AllOld(b, cutoff)
    ensures m < |b| && !Old(b[m], cutoff)
    ensures Kept(b, cutoff) == [b[m]] + Kept(b[m + 1..], cutoff)
  {
    if Old(b[0], cutoff) {
      var n := FirstYoung(b[1..], cutoff);
      m := n + 1;
      assert b[1..][n + 1..] == b[m + 1..];
    } else {
      m := 0;
    }
  }

  /** The same for a stretch `b` whose last row is old and some other is not. */
  lemma StretchGapBreaks(a: seq<Row>, b: seq<Row>, cutoff: int, cr: Row, c: seq<Row>)
    requires Intact(a + b) && b != [] && !AllOld(b, cutoff) && Old(b[|b| - 1], cutoff)
    requires Depth(Head(Unsigned, a + b[..|b| - 1])) < Depth(Next(cr))
    ensures !Good(Unsigned, a + [cr] + Kept(b, cutoff) + c)
  {
    var m := FirstYoung(b, cutoff);
    var s, inner, last := b[m], b[m + 1..|b| - 1], b[|b| - 1];
    var rest := Kept(b[m + 1..], cutoff) + c;
    assert a + [cr] + Kept(b, cutoff) + c == a + [cr] + ([s] + rest);
    var below := a + b[..m];
    assert below + [s] + inner == a + b[..|b| - 1];
    assert below + [s] + inner + [last] == a + b;
    GapBreaks(below, s, inner, last, cr, rest);
  }

  /** A record in place of the old rows of a stretch, exactly. */
  lemma PartsExact(a: seq<Row>, b: seq<Row>, c: seq<Row>, cr: Row, cutoff: int)
    requires Intact(a + b + c) && b != [] && Old(b[|b| - 1], cutoff)
    requires Depth(Head(Unsigned, a + b[..|b| - 1])) < Depth(Next(cr))
    ensures Good(Unsigned, a + [cr] + Kept(b, cutoff) + c) <==>
      AllOld(b, cutoff) && Links(Head(Unsigned, a), cr) && (c == [] || Next(cr) == Head(Unsigned, a + b))
  {
    IntactParts(a + b, c);
    if AllOld(b, cutoff) {
      KeptOfOld(b, cutoff);
      assert a + [cr] + [] + c == a + [cr] + c;
      SpliceExact(a, cr, b, c);
    } else {
      StretchGapBreaks(a, b, cutoff, cr, c);
    }
  }

  /** The head above a stretch, and when the compactor hands it over. */
  lemma TailIsHead(rule: Rule, a: seq<Row>, b: seq<Row>)
    requires Intact(a + b) && b != []
    ensures TailSig(rule, b[|b| - 1]) == Head(Unsigned, a + b) <==> rule.ChainHead? || !IsBridge(b[|b| - 1])
  {
    var last := b[|b| - 1];
    assert a + b == a + b[..|b| - 1] + [last];
    LastOfIntact(a + b[..|b| - 1], last);
  }

  /** When the whole stretch is old, the record alone replaces it. */
  lemma WholeStretch(rule: Rule, chain: seq<Row>, tenant: string, cutoff: int, id: string, now: int)
    requires HasOld(chain, cutoff) && AllOld(Stretch(chain, cutoff), cutoff)
    ensures CompactedChain(rule, chain, tenant, cutoff, id, now) ==
      Below(chain, cutoff)
        + [BridgeRow(rule, Below(chain, cutoff), Stretch(chain, cutoff), |Selected(chain, cutoff)|, tenant, cutoff, id,
          now)]
        + Above(chain, cutoff)
  {
    KeptOfOld(Stretch(chain, cutoff), cutoff);
    var front := Below(chain, cutoff)
      + [BridgeRow(rule, Below(chain, cutoff), Stretch(chain, cutoff), |Selected(chain, cutoff)|, tenant, cutoff, id,
        now)];
    assert front + [] == front;
  }

  /** Compaction, exactly. Whatever the cutoff selects, the chain it leaves verifies
      if and only if the old rows are one stretch, the signature taken below the
      stretch is the head there, and so is the one taken at its end if a row
      survives above. */
  lemma CompactionExact(rule: Rule, chain: seq<Row>, tenant: string, cutoff: int, id: string, now: int)
    requires Intact(chain) && HasOld(chain, cutoff)
    ensures var a, b, c := Below(chain, cutoff), Stretch(chain, cutoff), Above(chain, cutoff);
      Good(Unsigned, CompactedChain(rule, chain, tenant, cutoff, id, now)) <==>
        (&& AllOld(b, cutoff)
         && (a == [] || rule.ChainHead? || !IsBridge(a[|a| - 1]))
         && (c == [] || rule.ChainHead? || !IsBridge(b[|b| - 1])))
  {
    var a, b, c := Below(chain, cutoff), Stretch(chain, cutoff), Above(chain, cutoff);
    var n := |Selected(chain, cutoff)|;
    CutParts(chain, cutoff);
    IntactParts(a + b, c);
    IntactParts(a, b);
    RecordOf(rule, a, b, n, tenant, cutoff, id, now);
    PartsExact(a, b, c, BridgeRow(rule, a, b, n, tenant, cutoff, id, now), cutoff);
    SigBelowIsHead(rule, a);
    TailIsHead(rule, a, b);
  }

  /** The compactor as it is keeps the verdict exactly on bridgeable chains. */
  lemma CompactExact(chain: seq<Row>, tenant: string, cutoff: int, id: string, now: int)
    requires Intact(chain)
    ensures Verdict(Unsigned, CompactedChain(OwnSignature, chain, tenant, cutoff, id, now), 0).ok <==>
      Bridgeable(chain, cutoff)
  {
    VerdictIffGood(Unsigned, CompactedChain(OwnSignature, chain, tenant, cutoff, id, now), 0);
    if HasOld(chain, cutoff) {
      CompactionExact(OwnSignature, chain, tenant, cutoff, id, now);
    }
  }

  /** With the head rule of the appender it keeps the verdict exactly when the old
      rows are one stretch, whatever compaction records they touch. */
  lemma CorrectedCompactExact(chain: seq<Row>, tenant: string, cutoff: int, id: string, now: int)
    requires Intact(chain)
    ensures Verdict(Unsigned, CompactedChain(ChainHead, chain, tenant, cutoff, id, now), 0).ok <==>
      Contiguous(chain, cutoff)
  {
    VerdictIffGood(Unsigned, CompactedChain(ChainHead, chain, tenant, cutoff, id, now), 0);
    if HasOld(chain, cutoff) {
      CompactionExact(ChainHead, chain, tenant, cutoff, id, now);
    }
  }

  /** A record that replaces a whole stretch correctly keeps the chain intact. */
  lemma SpliceIntact(a: seq<Row>, b: seq<Row>, c: seq<Row>, cr: Row)
    requires Intact(a + b + c) && b != [] && Good(Unsigned, a + [cr] + c)
    requires Depth(Head(Unsigned, a + b[..|b| - 1])) < Depth(Next(cr))
    ensures Intact(a + [cr] + c)
  {
    IntactParts(a + b, c);
    IntactParts(a, b);
    assert a + b == (a + b[..|b| - 1]) + [b[|b| - 1]];
    IntactParts(a + b[..|b| - 1], [b[|b| - 1]]);
    IntactParts(a, b[..|b| - 1]);
    SpliceExact(a, cr, b, c);
    Top(Unsigned, a, cr);
    RisingConcat(Unsigned, a + [cr], c);
  }

  /** A compaction that keeps the verdict keeps the chain intact. */
  lemma CompactIntact(rule: Rule, chain: seq<Row>, tenant: string, cutoff: int, id: string, now: int)
    requires Intact(chain) && Good(Unsigned, CompactedChain(rule, chain, tenant, cutoff, id, now))
    ensures Intact(CompactedChain(rule, chain, tenant, cutoff, id, now))
  {
    if HasOld(chain, cutoff) {
      var a, b, c := Below(chain, cutoff), Stretch(chain, cutoff), Above(chain, cutoff);
      var n := |Selected(chain, cutoff)|;
      var cr := BridgeRow(rule, a, b, n, tenant, cutoff, id, now);
      CompactionExact(rule, chain, tenant, cutoff, id, now);
      WholeStretch(rule, chain, tenant, cutoff, id, now);
      CutParts(chain, cutoff);
      IntactParts(a + b, c);
      RecordOf(rule, a, b, n, tenant, cutoff, id, now);
      SpliceIntact(a, b, c, cr);
    }
  }

  // ---- What is left of an interrupted compaction ----

  /** A record's link and what it hands over, whatever else is on the chain. */
  lemma RecordLinks(rule: Rule, a: seq<Row>, b: seq<Row>, count: nat, tenant: string, cutoff: int, id: string,
                    now: int, h: Sig)
    requires b != [] && TailSig(rule, b[|b| - 1]) != Unsigned
    ensures var cr := BridgeRow(rule, a, b, count, tenant, cutoff, id, now);
      (Links(h, cr) <==> SigBelow(rule, a) == h) && Next(cr) == TailSig(rule, b[|b| - 1])
  {
    var last := b[|b| - 1];
    var bridge := Bridge(b[0].id, last.id, count, TailSig(rule, last), cutoff);
    SignLinks(SigBelow(rule, a),
      Row(id, tenant, "system", COMPACTION_ACTION, "audit_log", "", Compacted(bridge), "", now, Unsigned, b[0].seqNo));
  }

  /** Rows `x` are gone without a record; a pass that then takes exactly the rows right above
      the hole closes it just as if they had been there: its record is signed over the rows
      below and hands over the head above. */
  lemma RemnantExact(a: seq<Row>, x: seq<Row>, d: seq<Row>, c: seq<Row>, tenant: string, cutoff: int, id: string,
                     now: int)
    requires Intact(a + (x + d) + c) && d != [] && NoneOld(a, cutoff) && AllOld(d, cutoff) && NoneOld(c, cutoff)
    ensures Good(Unsigned, CompactedChain(OwnSignature, a + d + c, tenant, cutoff, id, now))
      <==> (a == [] || !IsBridge(a[|a| - 1])) && (c == [] || !IsBridge(d[|d| - 1]))
  {
    var b, chain, last := x + d, a + d + c, d[|d| - 1];
    IntactParts(a + b, c);
    IntactParts(a, b);
    CutIs(a, d, c, cutoff);
    WholeStretch(OwnSignature, chain, tenant, cutoff, id, now);
    assert b[|b| - 1] == last;
    assert a + b == a + b[..|b| - 1] + [last];
    LastOfIntact(a + b[..|b| - 1], last);
    var n := |Selected(chain, cutoff)|;
    RecordLinks(OwnSignature, a, d, n, tenant, cutoff, id, now, Head(Unsigned, a));
    SpliceExact(a, BridgeRow(OwnSignature, a, d, n, tenant, cutoff, id, now), b, c);
    SigBelowIsHead(OwnSignature, a);
    TailIsHead(OwnSignature, a, b);
  }

  // ---- Clocks ----

  /** Appended rows carry times that never go back. */
  predicate Chronological(chain: seq<Row>) {
    forall i, j :: 0 <= i < j < |chain| ==> chain[i].createdAt <= chain[j].createdAt
  }

  predicate NoBridges(chain: seq<Row>) {
    forall r :: r in chain ==> !IsBridge(r)
  }

  /** In chronological order the old rows are the first ones. */
  lemma {:induction false} ChronologicalCut(chain: seq<Row>, cutoff: int) returns (b: seq<Row>, c: seq<Row>)
    requires Chronological(chain)
    ensures b + c == chain && AllOld(b, cutoff) && NoneOld(c, cutoff)
  {
    if chain == [] || !Old(chain[0], cutoff) {
      b, c := [], chain;
    } else {
      b, c := ChronologicalCut(chain[1..], cutoff);
      b := [chain[0]] + b;
    }
  }

  /** Under a clock that never goes back the first compaction is always bridgeable:
      it selects a prefix and there is no other record to trip over. */
  lemma FirstCompactionBridgeable(chain: seq<Row>, cutoff: int)
    requires Chronological(chain) && NoBridges(chain)
    ensures Bridgeable(chain, cutoff)
    ensures HasOld(chain, cutoff) ==> Below(chain, cutoff) == []
  {
    var b, c := ChronologicalCut(chain, cutoff);
    if b == [] {
      NothingOld(chain, cutoff);
    } else {
      assert [] + b + c == chain;
      LastOfFirst(chain, b, c);
      BridgeableParts([], b, c, cutoff);
      CutIs([], b, c, cutoff);
    }
  }

  /** The second compaction, exactly: over a chain that starts with the first one's
      record it is bridgeable if and only if the record and the row after it, when
      there is one, are both old or both young. */
  lemma SecondCompactionExact(cr: Row, rest: seq<Row>, cutoff: int)
    requires IsBridge(cr) && Chronological(rest) && NoBridges(rest)
    ensures Bridgeable([cr] + rest, cutoff) <==> rest == [] || (Old(cr, cutoff) <==> Old(rest[0], cutoff))
  {
    var b, c := ChronologicalCut(rest, cutoff);
    Regroup([cr], b, c);
    assert b != [] ==> b[0] == rest[0];
    assert b == [] && rest != [] ==> c[0] == rest[0];
    if Old(cr, cutoff) {
      SecondTakesRecord(cr, b, c, cutoff);
      if b != [] { LastOfFirst(rest, b, c); }
    } else if b != [] {
      BridgeableParts([cr], b, c, cutoff);
    } else {
      NothingOld([cr] + rest, cutoff);
      assert rest == c;
    }
  }

  lemma LastOfFirst(rest: seq<Row>, b: seq<Row>, c: seq<Row>)
    requires NoBridges(rest) && rest == b + c && b != []
    ensures !IsBridge(b[|b| - 1])
  {
  }

  lemma SecondTakesRecord(cr: Row, b: seq<Row>, c: seq<Row>, cutoff: int)
    requires Old(cr, cutoff) && IsBridge(cr) && AllOld(b, cutoff) && NoneOld(c, cutoff)
    ensures Bridgeable([cr] + b + c, cutoff) <==> c == [] || (b != [] && !IsBridge(b[|b| - 1]))
  {
    var s := [cr] + b;
    BridgeableParts([], s, c, cutoff);
    assert [] + s + c == [cr] + b + c;
    assert AllOld(s, cutoff);
  }

  /** Retention that runs on a schedule: a second pass whose cutoff has reached a
      surviving row but not yet the first pass's record leaves a chain that the
      verifier rejects. */
  lemma ScheduledRetentionBreaks(cr: Row, rest: seq<Row>, tenant: string, cutoff: int, id: string, now: int)
    requires IsBridge(cr) && Intact([cr] + rest) && Chronological(rest) && NoBridges(rest)
    requires rest != [] && Old(rest[0], cutoff) && cutoff <= cr.createdAt
    ensures !Verdict(Unsigned, CompactedChain(OwnSignature, [cr] + rest, tenant, cutoff, id, now), 0).ok
  {
    SecondCompactionExact(cr, rest, cutoff);
    CompactExact([cr] + rest, tenant, cutoff, id, now);
  }
}
