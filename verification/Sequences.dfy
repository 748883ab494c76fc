/** Ways to cut and rejoin a sequence. */
module Sequences {

  /** All but the last element. */
  function Front<T>(s: seq<T>): seq<T>
    requires s != []
  {
    s[..|s| - 1]
  }

  function Last<T>(s: seq<T>): T
    requires s != []
  {
    s[|s| - 1]
  }

  lemma DropFront<T>(s: seq<T>, i: nat)
    requires i < |s|
    ensures s[i..] == [s[i]] + s[i + 1..]
  {
  }

  lemma TakeLast<T>(s: seq<T>)
    requires s != []
    ensures s == s[..|s| - 1] + [s[|s| - 1]]
  {
  }

  lemma ConsConcat<T>(x: T, s: seq<T>, t: seq<T>)
    ensures [x] + s + t == [x] + (s + t)
  {
  }

  lemma Regroup<T>(s: seq<T>, t: seq<T>, u: seq<T>)
    ensures s + t + u == s + (t + u)
  {
  }

  lemma ExchangeFront<T>(x: T, y: T, rest: seq<T>)
    ensures multiset([y] + rest) == multiset([x] + rest) - multiset{x} + multiset{y}
  {
  }

  lemma ExchangeBehind<T>(x: T, y: T, front: T, rest: seq<T>, after: seq<T>)
    requires x in rest && multiset(after) == multiset(rest) - multiset{x} + multiset{y}
    ensures multiset([front] + after) == multiset([front] + rest) - multiset{x} + multiset{y}
  {
  }
}
