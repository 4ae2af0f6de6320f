/** Ranked selection: the `k` best of a finite set by score, ties in any order. */
module TopK {
  import opened Collections
  import opened Sorting

  predicate Distinct<T(==)>(s: seq<T>) {
    forall i, j | 0 <= i < j < |s| :: s[i] != s[j]
  }

  function SetOf<T>(s: seq<T>): set<T> {
    set x | x in s
  }

  /** `result` is a best selection of `k` out of `cands`: ranked, of full size, and nothing left out scores higher
      than anything selected. */
  ghost predicate Best<T>(cands: set<T>, score: T -> real, k: nat, result: seq<T>) {
    && Distinct(result)
    && SetOf(result) <= cands
    && Descending(result, score)
    && |result| == Min(k, |cands|)
    && forall c, i | c in cands && c !in result && 0 <= i < |result| :: score(c) <= score(result[i])
  }

  // ----- Ranking distinct elements -----

  lemma {:induction false} DistinctSize<T>(s: seq<T>)
    requires Distinct(s)
    ensures |SetOf(s)| == |s|
  {
    if s != [] {
      var n := |s| - 1;
      DistinctSize(s[..n]);
      assert SetOf(s) == SetOf(s[..n]) + {s[n]};
    }
  }

  lemma {:induction false} DistinctOnce<T>(s: seq<T>, x: T)
    ensures Distinct(s) ==> multiset(s)[x] <= 1
  {
    if s != [] {
      var n := |s| - 1;
      assert s == s[..n] + [s[n]];
      DistinctOnce(s[..n], x);
    }
  }

  /** Sorting keeps elements distinct. */
  lemma RankedDistinct<T>(s: seq<T>, score: T -> real)
    requires Distinct(s)
    ensures Distinct(Ranked(s, score)) && SetOf(Ranked(s, score)) == SetOf(s)
  {
    hide Ranked;
    var r := Ranked(s, score);
    forall i, j | 0 <= i < j < |r| ensures r[i] != r[j] {
      if r[i] == r[j] {
        DistinctOnce(s, r[i]);
        TwiceOccurs(r, i, j);
      }
    }
    SameElements(r, s);
  }

  lemma SameElements<T>(a: seq<T>, b: seq<T>)
    requires multiset(a) == multiset(b)
    ensures SetOf(a) == SetOf(b)
  {
    forall x ensures x in a <==> x in b {
      assert x in multiset(a) <==> x in multiset(b);
    }
  }

  function Take<T>(s: seq<T>, k: nat): seq<T> {
    s[..Min(k, |s|)]
  }

  /** What stands behind the cut scores no higher than what stands before it. */
  lemma BehindTheCut<T>(r: seq<T>, score: T -> real, n: nat, c: T, i: nat)
    requires Descending(r, score) && i < n <= |r| && c in SetOf(r) && c !in r[..n]
    ensures score(c) <= score(r[i])
  {
    var j :| 0 <= j < |r| && r[j] == c;
    assert forall p | 0 <= p < n :: r[..n][p] == r[p];
  }

  /** The first `k` of a ranked list are a best selection from it. */
  lemma PrefixIsBest<T>(r: seq<T>, score: T -> real, k: nat)
    requires Distinct(r) && Descending(r, score)
    ensures Best(SetOf(r), score, k, Take(r, k))
  {
    hide SetOf, Descending;
    DistinctSize(r);
    var n := Min(k, |r|);
    PrefixMembers(r, n);
    PrefixDescending(r, score, n);
    forall c, i | c in SetOf(r) && c !in r[..n] && 0 <= i < n ensures score(c) <= score(r[i]) {
      BehindTheCut(r, score, n, c, i);
    }
  }

  lemma PrefixDescending<T>(r: seq<T>, score: T -> real, n: nat)
    requires Descending(r, score) && n <= |r|
    ensures Descending(r[..n], score)
  {
  }

  /** Sorting distinct candidates and taking the first `k` is a best selection. */
  lemma RankAndTakeIsBest<T>(s: seq<T>, score: T -> real, k: nat)
    requires Distinct(s)
    ensures Best(SetOf(s), score, k, Take(Ranked(s, score), k))
  {
    hide Best, Take, Ranked, Distinct, Descending;
    RankedDescending(s, score);
    RankedDistinct(s, score);
    PrefixIsBest(Ranked(s, score), score, k);
  }

  lemma PrefixMembers<T>(r: seq<T>, n: nat)
    requires n <= |r|
    ensures SetOf(r[..n]) <= SetOf(r)
  {
  }

  // ----- The scores of a best selection are unique -----

  function Scores<T>(s: seq<T>, score: T -> real): (r: seq<real>)
    ensures |r| == |s| && forall i | 0 <= i < |r| :: r[i] == score(s[i])
  {
    seq(|s|, i requires 0 <= i < |s| => score(s[i]))
  }

  /** What ranks above everything of `b` from rank `i` on is among the first `i` of `b`. */
  lemma RanksAboveCut<T>(cands: set<T>, score: T -> real, k: nat, b: seq<T>, i: nat, x: T)
    requires Best(cands, score, k, b) && i < |b| && x in cands && score(x) > score(b[i])
    ensures x in SetOf(b[..i])
  {
    var q :| 0 <= q < |b| && b[q] == x;
    assert b[..i][q] == x;
  }

  lemma RanksAbove<T>(cands: set<T>, score: T -> real, k: nat, a: seq<T>, b: seq<T>, i: nat, x: T)
    requires Best(cands, score, k, a) && Best(cands, score, k, b) && i < |a| && score(a[i]) > score(b[i])
    requires x in SetOf(a[..i + 1])
    ensures x in SetOf(b[..i])
  {
    hide Distinct;
    var p :| 0 <= p < i + 1 && a[..i + 1][p] == x;
    assert score(a[p]) >= score(a[i]);
    assert a[p] in SetOf(a);
    RanksAboveCut(cands, score, k, b, i, x);
  }

  /** No selection beats another at any rank. */
  lemma NoBetterAtRank<T>(cands: set<T>, score: T -> real, k: nat, a: seq<T>, b: seq<T>, i: nat)
    requires Best(cands, score, k, a) && Best(cands, score, k, b) && i < |a|
    ensures score(a[i]) <= score(b[i])
  {
    if score(a[i]) > score(b[i]) {
      hide SetOf, Descending;
      forall x | x in SetOf(a[..i + 1]) ensures x in SetOf(b[..i]) {
        RanksAbove(cands, score, k, a, b, i, x);
      }
      DistinctSize(a[..i + 1]);
      DistinctSize(b[..i]);
      SubsetSize(SetOf(a[..i + 1]), SetOf(b[..i]));
    }
  }

  lemma BestScoresUnique<T>(cands: set<T>, score: T -> real, k: nat, a: seq<T>, b: seq<T>)
    requires Best(cands, score, k, a) && Best(cands, score, k, b)
    ensures Scores(a, score) == Scores(b, score)
  {
    forall i | 0 <= i < |a| ensures score(a[i]) == score(b[i]) {
      NoBetterAtRank(cands, score, k, a, b, i);
      NoBetterAtRank(cands, score, k, b, a, i);
    }
  }

  // ----- Selecting from selections -----

  /** `part` is a best selection of its own candidates, all of them among `cands`, and all of it is in `pool`. */
  ghost predicate Contributes<T>(cands: set<T>, score: T -> real, k: nat, pool: set<T>, own: set<T>, part: seq<T>) {
    own <= cands && Best(own, score, k, part) && SetOf(part) <= pool
  }

  /** Every candidate belongs to some part. */
  ghost predicate Gathers<T>(
    cands: set<T>, score: T -> real, k: nat, pool: set<T>, owns: seq<set<T>>, parts: seq<seq<T>>)
  {
    && |owns| == |parts| && pool <= cands
    && (forall i | 0 <= i < |owns| :: Contributes(cands, score, k, pool, owns[i], parts[i]))
    && (forall c | c in cands :: exists i | 0 <= i < |owns| :: c in owns[i])
  }

  /** A candidate left out of the pool is beaten by `k` others of its part, which are in the pool. */
  lemma LeftOutIsBeaten<T>(cands: set<T>, score: T -> real, k: nat, pool: set<T>, own: set<T>, part: seq<T>, c: T)
    requires Contributes(cands, score, k, pool, own, part) && c in own && c !in pool
    ensures |part| == k && forall i | 0 <= i < |part| :: score(c) <= score(part[i])
  {
    assert c in SetOf(part) <==> c in part;
    DistinctSize(part);
    if |part| == |own| {
      SameSizeSubset(SetOf(part), own);
    }
  }

  /** A best selection from the pool is a best selection from all candidates. */
  lemma BestOfPoolIsBestOfAll<T>(
    cands: set<T>, score: T -> real, k: nat, pool: set<T>, owns: seq<set<T>>, parts: seq<seq<T>>, result: seq<T>)
    requires Gathers(cands, score, k, pool, owns, parts)
    requires Best(pool, score, k, result)
    ensures Best(cands, score, k, result)
  {
    PoolIsLargeEnough(cands, score, k, pool, owns, parts);
    forall c, i | c in cands && c !in result && 0 <= i < |result| ensures score(c) <= score(result[i]) {
      if c !in pool {
        var p :| 0 <= p < |owns| && c in owns[p];
        LeftOutIsBeaten(cands, score, k, pool, owns[p], parts[p], c);
        SelectionBeats(pool, score, k, result, parts[p], c, i);
      }
    }
  }

  /** With `k` elements of the pool scoring at least `c`, everything selected from the pool does. */
  lemma SelectionBeats<T>(pool: set<T>, score: T -> real, k: nat, result: seq<T>, part: seq<T>, c: T, i: nat)
    requires Best(pool, score, k, result) && i < |result|
    requires Distinct(part) && |part| == k && SetOf(part) <= pool
    requires forall j | 0 <= j < |part| :: score(c) <= score(part[j])
    ensures score(c) <= score(result[i])
  {
    if score(result[i]) < score(c) {
      forall x | x in SetOf(part) ensures x in SetOf(result) - {result[i]} {
        var j :| 0 <= j < |part| && part[j] == x;
        assert x in pool;
      }
      DistinctSize(part);
      DistinctSize(result);
      SubsetSize(SetOf(part), SetOf(result) - {result[i]});
    }
  }

  lemma PoolIsLargeEnough<T>(
    cands: set<T>, score: T -> real, k: nat, pool: set<T>, owns: seq<set<T>>, parts: seq<seq<T>>)
    requires Gathers(cands, score, k, pool, owns, parts)
    ensures Min(k, |pool|) == Min(k, |cands|)
  {
    SubsetSize(pool, cands);
    if c :| c in cands && c !in pool {
      var p :| 0 <= p < |owns| && c in owns[p];
      LeftOutIsBeaten(cands, score, k, pool, owns[p], parts[p], c);
      DistinctSize(parts[p]);
      SubsetSize(SetOf(parts[p]), pool);
    } else {
      assert pool == cands;
    }
  }
}
