/** Rewriting `?` placeholders to numbered ones. A char stands for one byte. */
module Placeholders {
  function Digit(n: nat): char
    requires n < 10
  {
    "0123456789"[n]
  }

  function Decimal(n: nat): string {
    if n < 10 then [Digit(n)] else Decimal(n / 10) + [Digit(n % 10)]
  }

  function Marker(n: nat): string {
    "$" + Decimal(n)
  }

  /** Whether the scanner is inside a string literal after this character. */
  predicate Flips(quoted: bool, c: char) {
    if c == '\'' then !quoted else quoted
  }

  predicate IsMark(quoted: bool, c: char) {
    c == '?' && !quoted
  }

  /** The text from a point where `n` placeholders have been numbered. */
  function Rewritten(q: string, n: nat, quoted: bool): string {
    if q == "" then ""
    else if IsMark(quoted, q[0]) then Marker(n + 1) + Rewritten(q[1..], n + 1, quoted)
    else [q[0]] + Rewritten(q[1..], n, Flips(quoted, q[0]))
  }

  datatype Dialect = SQLite | Postgres

  /** How far the scan has come is all that matters of it. */
  lemma RewrittenStep(done: string, q: string, i: nat, n: nat, quoted: bool)
    requires i < |q|
    ensures var c := q[i];
      if IsMark(quoted, c) then done + Rewritten(q[i..], n, quoted) == done + Marker(n + 1)
        + Rewritten(q[i + 1..], n + 1, quoted)
      else done + Rewritten(q[i..], n, quoted) == done + [c] + Rewritten(q[i + 1..], n, Flips(quoted, c))
  {
  }

  method Rewrite(dialect: Dialect, query: string) returns (r: string)
    ensures r == if dialect.Postgres? then Rewritten(query, 0, false) else query
  {
    if dialect != Postgres { return query; }
    r := "";
    var n, quoted := 0, false;
    for i := 0 to |query|
      invariant n >= 0 && r + Rewritten(query[i..], n, quoted) == Rewritten(query, 0, false)
    {
      RewrittenStep(r, query, i, n, quoted);
      var c := query[i];
      if c == '\'' { quoted := !quoted; }
      if !quoted && c == '?' {
        n := n + 1;
        r := r + Marker(n);
      } else {
        r := r + [c];
      }
    }
    assert query[|query|..] == "";
  }

  // ---- Decimals ----

  predicate Digits(s: string) {
    forall i :: 0 <= i < |s| ==> '0' <= s[i] <= '9'
  }

  /** Reading digits from left to right, each one times ten to what follows it. */
  function Reading(v: nat, s: string): nat
    requires Digits(s)
    decreases |s|
  {
    if s == "" then v else Reading(10 * v + (s[0] as int - '0' as int), s[1..])
  }

  /** A dollar sign and the decimal `n`, without leading zeros. */
  predicate Numeral(mark: string, n: nat) {
    |mark| > 1 && mark[0] == '$' && Digits(mark[1..]) && (mark[1] == '0' ==> n == 0) && Reading(0, mark[1..]) == n
  }

  lemma DigitReads(n: nat)
    requires n < 10
    ensures '0' <= Digit(n) <= '9' && Digit(n) as int - '0' as int == n
  {
  }

  lemma {:induction false} ReadingSnoc(v: nat, s: string, c: char)
    requires Digits(s) && '0' <= c <= '9'
    ensures Digits(s + [c]) && Reading(v, s + [c]) == 10 * Reading(v, s) + (c as int - '0' as int)
    decreases |s|
  {
    if s == "" {
      assert s + [c] == [c] && [c][1..] == "";
    } else {
      assert (s + [c])[1..] == s[1..] + [c];
      ReadingSnoc(10 * v + (s[0] as int - '0' as int), s[1..], c);
    }
  }

  /** A decimal written is the number read, and starts with no zero. */
  lemma {:induction false} DecimalReads(n: nat)
    ensures Decimal(n) != "" && Digits(Decimal(n)) && Reading(0, Decimal(n)) == n
    ensures Decimal(n)[0] == '0' <==> n == 0
  {
    DigitReads(n % 10);
    if n >= 10 {
      DecimalReads(n / 10);
      ReadingSnoc(0, Decimal(n / 10), Digit(n % 10));
    } else {
      assert [Digit(n)][1..] == "";
    }
  }

  lemma MarkerReads(n: nat)
    ensures Numeral(Marker(n), n)
  {
    DecimalReads(n);
    assert Marker(n)[1..] == Decimal(n);
  }

  /** Different numbers have different marks. */
  lemma MarkersDiffer(m: nat, n: nat)
    requires Marker(m) == Marker(n)
    ensures m == n
  {
    MarkerReads(m);
    MarkerReads(n);
  }

  // ---- What the rewriting means ----

  /** The text between the unquoted question marks, quotes and all. */
  function Pieces(q: string, quoted: bool): (p: seq<string>)
    ensures p != []
  {
    if q == "" then [""]
    else if IsMark(quoted, q[0]) then [""] + Pieces(q[1..], quoted)
    else
      var rest := Pieces(q[1..], Flips(quoted, q[0]));
      [[q[0]] + rest[0]] + rest[1..]
  }

  /** The pieces with marks between them. */
  function Marked(p: seq<string>): string
    requires p != []
  {
    if |p| == 1 then p[0] else p[0] + "?" + Marked(p[1..])
  }

  /** The pieces with `$n`, `$n+1` and so on between them. */
  function Numbered(p: seq<string>, n: nat): string
    requires p != []
  {
    if |p| == 1 then p[0] else p[0] + Marker(n) + Numbered(p[1..], n + 1)
  }

  /** The pieces with these texts between them. */
  function Between(p: seq<string>, marks: seq<string>): string
    requires |p| == |marks| + 1
  {
    if marks == [] then p[0] else p[0] + marks[0] + Between(p[1..], marks[1..])
  }

  /** No unquoted question mark. */
  predicate Settled(q: string, quoted: bool) {
    q == "" || (!IsMark(quoted, q[0]) && Settled(q[1..], Flips(quoted, q[0])))
  }

  lemma {:induction false} GrowFirst(c: char, p: seq<string>, n: nat)
    requires p != []
    ensures Marked([[c] + p[0]] + p[1..]) == [c] + Marked(p)
    ensures Numbered([[c] + p[0]] + p[1..], n) == [c] + Numbered(p, n)
  {
  }

  /** A query is its pieces with marks between them; the rewritten query is the same pieces,
      untouched, with a dollar sign and a number where the marks were: read as a decimal, the
      number after the i-th piece is i. */
  lemma MarksAreNumbered(q: string) returns (marks: seq<string>)
    ensures var p := Pieces(q, false);
      && q == Marked(p)
      && |p| == |marks| + 1 && Rewritten(q, 0, false) == Between(p, marks)
      && forall i :: 0 <= i < |marks| ==> Numeral(marks[i], i + 1)
  {
    PiecesNumbered(q, 0, false);
    marks := NumberedBetween(Pieces(q, false), 1);
  }

  lemma {:induction false} PiecesNumbered(q: string, n: nat, quoted: bool)
    ensures q == Marked(Pieces(q, quoted))
    ensures Rewritten(q, n, quoted) == Numbered(Pieces(q, quoted), n + 1)
  {
    if q != "" {
      if IsMark(quoted, q[0]) {
        PiecesNumbered(q[1..], n + 1, quoted);
        var p := Pieces(q, quoted);
        assert p[1..] == Pieces(q[1..], quoted) && p[0] == "";
        assert q == "" + "?" + q[1..];
      } else {
        var rest := Pieces(q[1..], Flips(quoted, q[0]));
        PiecesNumbered(q[1..], n, Flips(quoted, q[0]));
        GrowFirst(q[0], rest, n + 1);
      }
    }
  }

  lemma {:induction false} NumberedBetween(p: seq<string>, n: nat) returns (marks: seq<string>)
    requires p != [] && n > 0
    ensures |p| == |marks| + 1 && Numbered(p, n) == Between(p, marks)
    ensures forall i :: 0 <= i < |marks| ==> Numeral(marks[i], n + i)
  {
    marks := [];
    if |p| > 1 {
      var rest := NumberedBetween(p[1..], n + 1);
      MarkerReads(n);
      marks := [Marker(n)] + rest;
      assert marks[1..] == rest;
    }
  }

  /** How many single quotes there are. */
  function Quotes(s: string): nat {
    multiset(s)['\'']
  }

  /** Inside a literal: the quotes before it, with an open one at the start, are odd in number. */
  predicate InLiteral(s: string, i: nat, quoted: bool)
    requires i <= |s|
  {
    (Quotes(s[..i]) + if quoted then 1 else 0) % 2 == 1
  }

  lemma LiteralBehind(q: string, i: nat, quoted: bool)
    requires 0 < i <= |q|
    ensures InLiteral(q, i, quoted) <==> InLiteral(q[1..], i - 1, Flips(quoted, q[0]))
  {
    assert q[..i] == [q[0]] + q[1..][..i - 1];
  }

  /** Every mark in a settled text stands inside a literal. */
  lemma {:induction false} SettledMeans(q: string, quoted: bool)
    ensures Settled(q, quoted) <==> forall i :: 0 <= i < |q| && q[i] == '?' ==> InLiteral(q, i, quoted)
  {
    if q != "" {
      SettledMeans(q[1..], Flips(quoted, q[0]));
      assert InLiteral(q, 0, quoted) <==> quoted;
      forall i | 0 <= i < |q[1..]|
        ensures q[1..][i] == q[i + 1] && (InLiteral(q[1..], i, Flips(quoted, q[0])) <==> InLiteral(q, i + 1, quoted))
      {
        LiteralBehind(q, i + 1, quoted);
      }
      assert forall i :: 0 < i < |q| ==> q[i] == q[1..][i - 1];
    }
  }

  /** Where the pieces are cut, exactly: the marks inside them stand in string literals, and
      every literal ends in the piece it began in, so the marks between them stand in none. */
  lemma PiecesCut(q: string, i: nat)
    requires i < |Pieces(q, false)|
    ensures var p := Pieces(q, false)[i];
      && (forall j :: 0 <= j < |p| && p[j] == '?' ==> InLiteral(p, j, false))
      && (i < |Pieces(q, false)| - 1 ==> !InLiteral(p, |p|, false))
  {
    PiecesSettled(q, false, i);
    SettledMeans(Pieces(q, false)[i], false);
    if i < |Pieces(q, false)| - 1 { PieceCloses(q, false, i); }
  }

  lemma {:induction false} PieceCloses(q: string, quoted: bool, i: nat)
    requires i < |Pieces(q, quoted)| - 1
    ensures var p := Pieces(q, quoted)[i]; !InLiteral(p, |p|, i == 0 && quoted)
  {
    if IsMark(quoted, q[0]) {
      if i > 0 { PieceCloses(q[1..], quoted, i - 1); }
    } else {
      PieceCloses(q[1..], Flips(quoted, q[0]), i);
      var p := Pieces(q, quoted)[i];
      if i == 0 {
        assert p[1..] == Pieces(q[1..], Flips(quoted, q[0]))[0];
        LiteralBehind(p, |p|, quoted);
      }
    }
  }

  /** The pieces hold no unquoted mark: nothing is left to number. */
  lemma {:induction false} PiecesSettled(q: string, quoted: bool, i: nat)
    requires i < |Pieces(q, quoted)|
    ensures Settled(Pieces(q, quoted)[i], if i == 0 then quoted else false)
  {
    if q != "" {
      if IsMark(quoted, q[0]) {
        if i > 0 { PiecesSettled(q[1..], quoted, i - 1); }
      } else {
        PiecesSettled(q[1..], Flips(quoted, q[0]), i);
        var rest := Pieces(q[1..], Flips(quoted, q[0]));
        assert ([q[0]] + rest[0])[1..] == rest[0];
      }
    }
  }

  // ---- Doing it twice ----

  predicate Plain(s: string) {
    forall i :: 0 <= i < |s| ==> s[i] != '\'' && s[i] != '?'
  }

  lemma {:induction false} PlainPrefix(s: string, q: string, quoted: bool)
    requires Plain(s)
    ensures Settled(s + q, quoted) == Settled(q, quoted)
  {
    if s == "" {
      assert s + q == q;
    } else {
      assert (s + q)[1..] == s[1..] + q && s[0] in s;
      PlainPrefix(s[1..], q, quoted);
    }
  }

  lemma {:induction false} RewrittenSettled(q: string, n: nat, quoted: bool)
    ensures Settled(Rewritten(q, n, quoted), quoted)
  {
    if q != "" {
      if IsMark(quoted, q[0]) {
        RewrittenSettled(q[1..], n + 1, quoted);
        DecimalReads(n + 1);
        assert Plain(Marker(n + 1));
        PlainPrefix(Marker(n + 1), Rewritten(q[1..], n + 1, quoted), quoted);
      } else {
        RewrittenSettled(q[1..], n, Flips(quoted, q[0]));
        assert Rewritten(q, n, quoted)[1..] == Rewritten(q[1..], n, Flips(quoted, q[0]));
      }
    }
  }

  lemma {:induction false} SettledStays(q: string, n: nat, quoted: bool)
    requires Settled(q, quoted)
    ensures Rewritten(q, n, quoted) == q
  {
    if q != "" {
      SettledStays(q[1..], n, Flips(quoted, q[0]));
      assert q == [q[0]] + q[1..];
    }
  }

  /** Rewriting a rewritten query changes nothing, for every string. */
  lemma Idempotent(q: string, n: nat, m: nat, quoted: bool)
    ensures Rewritten(Rewritten(q, n, quoted), m, quoted) == Rewritten(q, n, quoted)
  {
    RewrittenSettled(q, n, quoted);
    SettledStays(Rewritten(q, n, quoted), m, quoted);
  }

  // ---- Undoing it ----

  /** Reads the numbered form back, knowing which number comes next. */
  function Restored(r: string, n: nat, quoted: bool): string
    decreases |r|
  {
    if r == "" then ""
    else if !quoted && Marker(n + 1) <= r then "?" + Restored(r[|Marker(n + 1)|..], n + 1, quoted)
    else [r[0]] + Restored(r[1..], n, Flips(quoted, r[0]))
  }

  /** No dollar sign outside string literals. */
  predicate NoDollar(q: string, quoted: bool) {
    q == "" || ((q[0] == '$' ==> quoted) && NoDollar(q[1..], Flips(quoted, q[0])))
  }

  /** Nothing is lost: a query without unquoted dollar signs is recovered exactly. */
  lemma {:induction false} RoundTrip(q: string, n: nat, quoted: bool)
    requires NoDollar(q, quoted)
    ensures Restored(Rewritten(q, n, quoted), n, quoted) == q
  {
    if q != "" {
      var r := Rewritten(q, n, quoted);
      if IsMark(quoted, q[0]) {
        RoundTrip(q[1..], n + 1, quoted);
        assert Marker(n + 1) <= r && r[|Marker(n + 1)|..] == Rewritten(q[1..], n + 1, quoted);
        assert Restored(r, n, quoted) == "?" + q[1..];
      } else {
        RoundTrip(q[1..], n, Flips(quoted, q[0]));
        assert r[0] == q[0] && r[1..] == Rewritten(q[1..], n, Flips(quoted, q[0]));
        if !quoted { assert Marker(n + 1)[0] == '$' && !(Marker(n + 1) <= r); }
        assert q == [q[0]] + q[1..];
      }
    }
  }

  /** With a dollar sign it can be: a mark and the number it would get come out alike. */
  lemma DollarCollides()
    ensures Rewritten("?", 0, false) == Rewritten("$1", 0, false) && NoDollar("?", false) && !NoDollar("$1", false)
  {
  }
}
