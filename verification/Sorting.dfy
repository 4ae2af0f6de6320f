/** Stable sorting by score, best first. */
module Sorting {
  predicate Descending<T>(s: seq<T>, score: T -> real) {
    forall i, j | 0 <= i < j < |s| :: score(s[i]) >= score(s[j])
  }

  function Insert<T>(x: T, s: seq<T>, score: T -> real): (r: seq<T>)
    ensures multiset(r) == multiset{x} + multiset(s)
  {
    if s == [] || score(x) >= score(s[0]) then [x] + s
    else
      assert s == [s[0]] + s[1..];
      [s[0]] + Insert(x, s[1..], score)
  }

  /** The stable sort by descending score. */
  function Ranked<T>(s: seq<T>, score: T -> real): (r: seq<T>)
    ensures multiset(r) == multiset(s) && |r| == |s|
  {
    if s == [] then [] else
    assert s == [s[0]] + s[1..];
    var r := Insert(s[0], Ranked(s[1..], score), score);
    assert |multiset(r)| == |r|;
    r
  }

  lemma {:induction false} InsertDescending<T>(x: T, s: seq<T>, score: T -> real)
    requires Descending(s, score)
    ensures Descending(Insert(x, s, score), score)
  {
    if s != [] && score(x) < score(s[0]) {
      InsertDescending(x, s[1..], score);
      var rest := Insert(x, s[1..], score);
      forall y | y in rest ensures score(s[0]) >= score(y) {
        assert y in multiset(rest);
      }
    }
  }

  lemma {:induction false} RankedDescending<T>(s: seq<T>, score: T -> real)
    ensures Descending(Ranked(s, score), score)
  {
    if s != [] {
      RankedDescending(s[1..], score);
      InsertDescending(s[0], Ranked(s[1..], score), score);
    }
  }

  /** The elements with score `v`, in order. */
  function WithScore<T>(s: seq<T>, score: T -> real, v: real): seq<T> {
    if s == [] then [] else (if score(s[0]) == v then [s[0]] else []) + WithScore(s[1..], score, v)
  }

  lemma WithScoreCons<T>(x: T, s: seq<T>, score: T -> real, v: real)
    ensures WithScore([x] + s, score, v) == (if score(x) == v then [x] else []) + WithScore(s, score, v)
  {
    assert ([x] + s)[1..] == s;
  }

  lemma {:induction false} InsertBeforeTies<T>(x: T, s: seq<T>, score: T -> real, v: real)
    ensures WithScore(Insert(x, s, score), score, v) ==
      (if score(x) == v then [x] else []) + WithScore(s, score, v)
  {
    hide WithScore;
    if s == [] || score(x) >= score(s[0]) {
      WithScoreCons(x, s, score, v);
    } else {
      assert s == [s[0]] + s[1..];
      InsertBeforeTies(x, s[1..], score, v);
      WithScoreCons(s[0], s[1..], score, v);
      WithScoreCons(s[0], Insert(x, s[1..], score), score, v);
    }
  }

  /** Elements with equal scores keep their order. */
  lemma {:induction false} RankedIsStable<T>(s: seq<T>, score: T -> real, v: real)
    ensures WithScore(Ranked(s, score), score, v) == WithScore(s, score, v)
  {
    if s != [] {
      RankedIsStable(s[1..], score, v);
      InsertBeforeTies(s[0], Ranked(s[1..], score), score, v);
    }
  }
}
