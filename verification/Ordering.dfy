/** Sorting as the database does it: `ORDER BY` over an arbitrary strict order,
    and the byte order of strings that breaks ties on ids. */
module Ordering {

  /** `before` is irreflexive and transitive, and any two elements it leaves
      unordered have the same elements on either side. */
  ghost predicate StrictWeakOrder<T(!new)>(before: (T, T) -> bool) {
    && (forall x :: !before(x, x))
    && (forall x, y, z :: before(x, y) && before(y, z) ==> before(x, z))
    && (forall x, y, z :: before(x, z) ==> before(x, y) || before(y, z))
  }

  ghost predicate Sorted<T>(q: seq<T>, before: (T, T) -> bool) {
    forall i, j :: 0 <= i < j < |q| ==> !before(q[j], q[i])
  }

  ghost predicate StrictlySorted<T>(q: seq<T>, before: (T, T) -> bool) {
    forall i, j :: 0 <= i < j < |q| ==> before(q[i], q[j])
  }

  function InsertBy<T>(q: seq<T>, x: T, before: (T, T) -> bool): (r: seq<T>) {
    if q == [] then [x]
    else if before(x, q[0]) then [x] + q
    else [q[0]] + InsertBy(q[1..], x, before)
  }

  function OrderBy<T>(s: seq<T>, before: (T, T) -> bool): (r: seq<T>) {
    if s == [] then [] else InsertBy(OrderBy(s[1..], before), s[0], before)
  }

  lemma {:induction false} InsertByKeepsElements<T>(q: seq<T>, x: T, before: (T, T) -> bool)
    ensures multiset(InsertBy(q, x, before)) == multiset(q) + multiset{x}
  {
    if q != [] && !before(x, q[0]) {
      InsertByKeepsElements(q[1..], x, before);
      assert q == [q[0]] + q[1..];
    }
  }

  lemma {:induction false} OrderByKeepsElements<T>(s: seq<T>, before: (T, T) -> bool)
    ensures multiset(OrderBy(s, before)) == multiset(s)
  {
    if s != [] {
      OrderByKeepsElements(s[1..], before);
      InsertByKeepsElements(OrderBy(s[1..], before), s[0], before);
      assert s == [s[0]] + s[1..];
    }
  }

  lemma {:induction false} InsertBySorted<T(!new)>(q: seq<T>, x: T, before: (T, T) -> bool)
    requires StrictWeakOrder(before) && Sorted(q, before)
    ensures Sorted(InsertBy(q, x, before), before)
  {
    if q != [] && !before(x, q[0]) {
      InsertBySorted(q[1..], x, before);
      var r := InsertBy(q[1..], x, before);
      InsertByKeepsElements(q[1..], x, before);
      forall j | 0 <= j < |r| ensures !before(r[j], q[0]) {
        assert r[j] in multiset(r);
        assert r[j] == x || r[j] in q[1..];
      }
    }
  }

  lemma {:induction false} OrderBySorted<T(!new)>(s: seq<T>, before: (T, T) -> bool)
    requires StrictWeakOrder(before)
    ensures Sorted(OrderBy(s, before), before)
  {
    if s != [] {
      OrderBySorted(s[1..], before);
      InsertBySorted(OrderBy(s[1..], before), s[0], before);
    }
  }

  lemma SameFirst<T>(p: seq<T>, q: seq<T>, before: (T, T) -> bool)
    requires Sorted(p, before) && StrictlySorted(q, before) && multiset(p) == multiset(q) && q != []
    ensures p != [] && p[0] == q[0]
  {
    assert q[0] in multiset(p);
    var j :| 0 <= j < |p| && p[j] == q[0];
    assert p[0] in multiset(q);
    var i :| 0 <= i < |q| && q[i] == p[0];
    if i > 0 {
      assert before(q[0], q[i]);
    }
  }

  lemma TailElements<T>(p: seq<T>)
    requires p != []
    ensures multiset(p[1..]) == multiset(p) - multiset{p[0]}
  {
    assert p == [p[0]] + p[1..];
  }

  lemma {:induction false} SortedUnique<T>(p: seq<T>, q: seq<T>, before: (T, T) -> bool)
    requires Sorted(p, before) && StrictlySorted(q, before) && multiset(p) == multiset(q)
    ensures p == q
  {
    if q == [] {
      assert |multiset(p)| == 0;
    } else {
      SameFirst(p, q, before);
      TailElements(p);
      TailElements(q);
      SortedUnique(p[1..], q[1..], before);
      assert p == [p[0]] + p[1..] && q == [q[0]] + q[1..];
    }
  }

  /** A strictly sorted arrangement of the rows is the one the database returns. */
  lemma OrderByIs<T(!new)>(s: seq<T>, q: seq<T>, before: (T, T) -> bool)
    requires StrictWeakOrder(before) && StrictlySorted(q, before) && multiset(s) == multiset(q)
    ensures OrderBy(s, before) == q
  {
    OrderBySorted(s, before);
    OrderByKeepsElements(s, before);
    SortedUnique(OrderBy(s, before), q, before);
  }

  /** Byte order of strings, the order SQL uses for ids. */
  predicate TextBefore(a: string, b: string) {
    b != [] && (a == [] || a[0] < b[0] || (a[0] == b[0] && TextBefore(a[1..], b[1..])))
  }

  lemma {:induction false} TextBeforeIrreflexive(a: string)
    ensures !TextBefore(a, a)
  {
    if a != [] { TextBeforeIrreflexive(a[1..]); }
  }

  lemma {:induction false} TextBeforeTransitive(a: string, b: string, c: string)
    requires TextBefore(a, b) && TextBefore(b, c)
    ensures TextBefore(a, c)
  {
    if a != [] && b != [] && c != [] && a[0] == b[0] == c[0] {
      TextBeforeTransitive(a[1..], b[1..], c[1..]);
    }
  }

  lemma {:induction false} TextBeforeTotal(a: string, b: string)
    ensures a == b || TextBefore(a, b) || TextBefore(b, a)
  {
    if a != [] && b != [] && a[0] == b[0] {
      TextBeforeTotal(a[1..], b[1..]);
      assert a == [a[0]] + a[1..] && b == [b[0]] + b[1..];
    }
  }

  /** The first place at which two strings differ. */
  predicate Parts(a: string, b: string, i: nat) {
    i < |a| && i < |b| && a[..i] == b[..i] && a[i] != b[i]
  }

  /** A string comes before another when it is a proper prefix of it or has the smaller
      character at the first place where the two differ. */
  lemma {:induction false} TextBeforeMeans(a: string, b: string)
    ensures TextBefore(a, b) <==> a < b || exists i: nat :: Parts(a, b, i) && a[i] < b[i]
  {
    if a != [] && b != [] && a[0] == b[0] {
      TextBeforeMeans(a[1..], b[1..]);
      assert a == [a[0]] + a[1..] && b == [b[0]] + b[1..];
      PartsBehind(a, b);
    } else if a != [] && b != [] {
      assert Parts(a, b, 0);
      forall i: nat | Parts(a, b, i) ensures i == 0 {
      }
    }
  }

  lemma PartsBehind(a: string, b: string)
    requires a != [] && b != [] && a[0] == b[0]
    ensures forall i: nat :: Parts(a, b, i) <==> i > 0 && Parts(a[1..], b[1..], i - 1)
  {
    forall i: nat | 0 < i <= |a| && i <= |b| ensures a[..i] == b[..i] <==> a[1..][..i - 1] == b[1..][..i - 1] {
      assert a[..i] == [a[0]] + a[1..][..i - 1] && b[..i] == [b[0]] + b[1..][..i - 1];
    }
  }
}
