/** Audit rows, the canonical payload that a signature covers, and the keyed
    hash as a free constructor. */
module AuditRecord {
  import opened Numbers

  /** One symbol of a canonical payload: a character, a decimal number, or the
      JSON object that a compaction record stores in its details. */
  datatype Sym = Ch(c: char) | Num(n: int) | Obj(bridge: Bridge)

  type Text = seq<Sym>

  datatype Bridge = Bridge(firstDeleted: string, lastDeleted: string, count: nat, endSig: Sig, cutoff: int)

  /** A stored signature: the empty column, or the keyed hash of the previous
      signature and a payload. */
  datatype Sig = Unsigned | Mac(prev: Sig, payload: Text)

  /** The details column, read as a compaction record or as anything else. */
  datatype Details = Plain(text: string) | Compacted(bridge: Bridge)

  datatype Row = Row(
    id: string, tenant: string, user: string, action: string,
    resourceType: string, resourceId: string, details: Details, ip: string,
    createdAt: int, sig: Sig, seqNo: int)

  const COMPACTION_ACTION := "audit.compaction"

  function Chars(s: string): (t: Text)
    ensures |t| == |s| && forall i :: 0 <= i < |s| ==> t[i] == Ch(s[i])
  {
    seq(|s|, i requires 0 <= i < |s| => Ch(s[i]))
  }

  function DetailsText(d: Details): Text {
    match d
    case Plain(text) => Chars(text)
    case Compacted(bridge) => [Obj(bridge)]
  }

  function Fields(r: Row): seq<Text> {
    [Chars(r.id), Chars(r.tenant), Chars(r.user), Chars(r.action), Chars(r.resourceType),
     Chars(r.resourceId), DetailsText(r.details), Chars(r.ip), [Num(r.createdAt)]]
  }

  const BAR := Ch('|')

  function Join(fields: seq<Text>): Text {
    if fields == [] then []
    else if |fields| == 1 then fields[0]
    else fields[0] + [BAR] + Join(fields[1..])
  }

  /** What a signature covers. */
  function Payload(r: Row): Text {
    Join(Fields(r))
  }

  predicate IsBridge(r: Row) {
    r.action == COMPACTION_ACTION
  }

  /** The end signature a details column carries, `Unsigned` when there is none. */
  function EndSig(d: Details): Sig {
    match d
    case Plain(_) => Unsigned
    case Compacted(bridge) => bridge.endSig
  }

  /** Splitting at bars, the reader that a payload would need. */
  function Split(t: Text): (fields: seq<Text>)
    ensures fields != []
  {
    if t == [] then [[]]
    else
      var rest := Split(t[1..]);
      if t[0] == BAR then [[]] + rest else [[t[0]] + rest[0]] + rest[1..]
  }

  predicate BarFree(t: Text) {
    BAR !in t
  }

  lemma {:induction false} SplitField(f: Text, rest: Text)
    requires BarFree(f)
    ensures Split(f + [BAR] + rest) == [f] + Split(rest)
    ensures Split(f) == [f]
  {
    if f == [] {
      assert f + [BAR] + rest == [BAR] + rest;
      assert ([BAR] + rest)[1..] == rest;
    } else {
      assert f[0] in f;
      assert forall x :: x in f[1..] ==> x in f;
      SplitField(f[1..], rest);
      assert (f + [BAR] + rest)[1..] == f[1..] + [BAR] + rest;
      assert f == [f[0]] + f[1..];
    }
  }

  /** Splitting undoes joining when no field contains a bar. */
  lemma {:induction false} SplitJoin(fields: seq<Text>)
    requires fields != [] && forall f :: f in fields ==> BarFree(f)
    ensures Split(Join(fields)) == fields
  {
    if |fields| == 1 {
      SplitField(fields[0], []);
    } else {
      SplitJoin(fields[1..]);
      SplitField(fields[0], Join(fields[1..]));
      assert fields == [fields[0]] + fields[1..];
    }
  }

  predicate Unambiguous(r: Row) {
    forall f :: f in Fields(r) ==> BarFree(f)
  }

  /** Reading such a row's payload gives its columns in the order fixed for all time. */
  lemma PayloadReads(r: Row)
    requires Unambiguous(r)
    ensures Split(Payload(r)) ==
      [Chars(r.id), Chars(r.tenant), Chars(r.user), Chars(r.action), Chars(r.resourceType), Chars(r.resourceId),
       DetailsText(r.details), Chars(r.ip), [Num(r.createdAt)]]
  {
    SplitJoin(Fields(r));
  }

  lemma CharsInjective(a: string, b: string)
    requires Chars(a) == Chars(b)
    ensures a == b
  {
  }

  lemma DetailsInjective(a: Details, b: Details)
    requires DetailsText(a) == DetailsText(b)
    ensures a == b
  {
    if a.Plain? && b.Plain? {
      CharsInjective(a.text, b.text);
    } else {
      assert |DetailsText(a)| == |DetailsText(b)|;
      if |DetailsText(a)| == 1 {
        assert DetailsText(a)[0] == DetailsText(b)[0];
      }
    }
  }

  /** Rows whose fields contain no bar are told apart by their payloads: only the
      signature and the sequence number are outside it. */
  lemma PayloadInjective(a: Row, b: Row)
    requires Unambiguous(a) && Unambiguous(b) && Payload(a) == Payload(b)
    ensures a == b.(sig := a.sig, seqNo := a.seqNo)
  {
    SplitJoin(Fields(a));
    SplitJoin(Fields(b));
    var x, y := Fields(a), Fields(b);
    assert x[0] == y[0] && x[1] == y[1] && x[2] == y[2] && x[3] == y[3] && x[4] == y[4];
    assert x[5] == y[5] && x[6] == y[6] && x[7] == y[7] && x[8] == y[8];
    CharsInjective(a.id, b.id);
    CharsInjective(a.tenant, b.tenant);
    CharsInjective(a.user, b.user);
    CharsInjective(a.action, b.action);
    CharsInjective(a.resourceType, b.resourceType);
    CharsInjective(a.resourceId, b.resourceId);
    DetailsInjective(a.details, b.details);
    CharsInjective(a.ip, b.ip);
    assert [Num(a.createdAt)][0] == [Num(b.createdAt)][0];
  }

  /** Without that condition the payload is ambiguous: text moved across a bar
      between the details and the address leaves it unchanged. */
  lemma BarShiftKeepsPayload(r: Row, x: string, y: string, z: string)
    ensures Payload(r.(details := Plain(x + "|" + y), ip := z)) == Payload(r.(details := Plain(x), ip := y + "|" + z))
  {
    var a, b := r.(details := Plain(x + "|" + y), ip := z), r.(details := Plain(x), ip := y + "|" + z);
    assert Chars(x + "|" + y) == Chars(x) + [BAR] + Chars(y);
    assert Chars(y + "|" + z) == Chars(y) + [BAR] + Chars(z);
    assert Fields(a)[6..] == [Chars(x + "|" + y), Chars(z), [Num(r.createdAt)]];
    assert Fields(b)[6..] == [Chars(x), Chars(y + "|" + z), [Num(r.createdAt)]];
    assert Join(Fields(a)[6..]) == Join(Fields(b)[6..]) by {
      JoinThree(Chars(x + "|" + y), Chars(z), [Num(r.createdAt)]);
      JoinThree(Chars(x), Chars(y + "|" + z), [Num(r.createdAt)]);
      assert Chars(x) + [BAR] + Chars(y) + [BAR] + Chars(z) + [BAR] + [Num(r.createdAt)]
          == Chars(x) + [BAR] + (Chars(y) + [BAR] + Chars(z)) + [BAR] + [Num(r.createdAt)];
    }
    JoinTail(Fields(a), Fields(b), 6);
  }

  lemma JoinThree(a: Text, b: Text, c: Text)
    ensures Join([a, b, c]) == a + [BAR] + b + [BAR] + c
  {
    assert [a, b, c][1..] == [b, c] && [b, c][1..] == [c];
    assert Join([b, c]) == b + [BAR] + Join([c]);
    assert Join([c]) == c;
  }

  lemma {:induction false} JoinTail(a: seq<Text>, b: seq<Text>, n: nat)
    requires n < |a| == |b| && a[..n] == b[..n] && Join(a[n..]) == Join(b[n..])
    ensures Join(a) == Join(b)
  {
    if n == 0 {
      assert a[0..] == a && b[0..] == b;
    } else {
      assert a[0] == a[..n][0] && b[0] == b[..n][0];
      assert a[1..][n - 1..] == a[n..] && b[1..][n - 1..] == b[n..];
      assert a[1..][..n - 1] == a[..n][1..] && b[1..][..n - 1] == b[..n][1..];
      JoinTail(a[1..], b[1..], n - 1);
    }
  }

  /** How deeply signatures nest, through payloads as well as predecessors. */
  function Depth(s: Sig): nat {
    match s
    case Unsigned => 0
    case Mac(prev, payload) => 1 + Max(Depth(prev), TextDepth(payload))
  }

  function TextDepth(t: Text): nat {
    if t == [] then 0 else Max(SymDepth(t[0]), TextDepth(t[1..]))
  }

  function SymDepth(y: Sym): nat {
    match y
    case Obj(bridge) => Depth(bridge.endSig)
    case _ => 0
  }

  lemma {:induction false} DeeperThanSymbol(t: Text, i: nat)
    requires i < |t|
    ensures SymDepth(t[i]) <= TextDepth(t)
  {
    if i > 0 { DeeperThanSymbol(t[1..], i - 1); }
  }

  /** A compaction record's own signature covers the end signature it stores, so
      the two are never the same. */
  lemma BridgeSigDeeper(prev: Sig, r: Row)
    ensures Depth(EndSig(r.details)) < Depth(Mac(prev, Payload(r)))
    ensures Depth(prev) < Depth(Mac(prev, Payload(r)))
  {
    if r.details.Compacted? {
      var fs := Fields(r);
      assert fs[6] == [Obj(r.details.bridge)];
      SymbolOfJoin(fs, 6, Obj(r.details.bridge));
      var i :| 0 <= i < |Payload(r)| && Payload(r)[i] == Obj(r.details.bridge);
      DeeperThanSymbol(Payload(r), i);
    }
  }

  lemma {:induction false} SymbolOfJoin(fields: seq<Text>, n: nat, y: Sym)
    requires n < |fields| && y in fields[n]
    ensures y in Join(fields)
  {
    if n > 0 { SymbolOfJoin(fields[1..], n - 1, y); }
  }
}
