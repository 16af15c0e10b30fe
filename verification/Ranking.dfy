/** Scores by comic, the descending sort with free ties, and what a ranked cut of it must be. */
module Ranking {
  import opened Lists

  type Scores = map<int, nat>

  /** Reading a Go map: a missing key reads as zero. */
  function At(scores: Scores, id: int): nat {
    if id in scores then scores[id] else 0
  }

  /** `scores[id]++` for each of the ids in turn. */
  function Bump(scores: Scores, ids: seq<int>): Scores {
    if ids == [] then scores
    else
      var before := Bump(scores, ids[..|ids| - 1]);
      var id := ids[|ids| - 1];
      before[id := At(before, id) + 1]
  }

  lemma {:induction false} BumpDistinct(scores: Scores, ids: seq<int>)
    requires NoDup(ids)
    ensures Bump(scores, ids).Keys == scores.Keys + ToSet(ids)
    ensures forall id :: At(Bump(scores, ids), id) == At(scores, id) + (if id in ids then 1 else 0)
  {
    if ids != [] {
      var init := ids[..|ids| - 1];
      BumpDistinct(scores, init);
      ToSetSnoc(ids);
      assert ids == init + [ids[|ids| - 1]];
      assert ids[|ids| - 1] !in init;
    }
  }

  /** cmp.Compare. */
  function Compare(x: int, y: int): int {
    if x < y then -1 else if x > y then 1 else 0
  }

  /** The comparison both searches sort with: the higher score first. */
  function ByScore(scores: Scores): (int, int) -> int {
    (a, b) => Compare(At(scores, b), At(scores, a))
  }

  ghost predicate Incomparable(cmp: (int, int) -> int, a: int, b: int) {
    !(cmp(a, b) < 0) && !(cmp(b, a) < 0)
  }

  /** What slices.SortedFunc demands of its comparison. */
  ghost predicate StrictWeakOrder(cmp: (int, int) -> int) {
    && (forall a :: !(cmp(a, a) < 0))
    && (forall a, b, c :: cmp(a, b) < 0 && cmp(b, c) < 0 ==> cmp(a, c) < 0)
    && (forall a, b, c :: Incomparable(cmp, a, b) && Incomparable(cmp, b, c) ==> Incomparable(cmp, a, c))
  }

  ghost predicate SortedBy(cmp: (int, int) -> int, ids: seq<int>) {
    forall i, j :: 0 <= i < j < |ids| ==> !(cmp(ids[j], ids[i]) < 0)
  }

  lemma Asymmetric(cmp: (int, int) -> int, a: int, b: int)
    requires StrictWeakOrder(cmp)
    requires cmp(a, b) < 0
    ensures !(cmp(b, a) < 0)
  {
  }

  lemma NotLessTransitive(cmp: (int, int) -> int, a: int, b: int, c: int)
    requires StrictWeakOrder(cmp)
    requires !(cmp(b, a) < 0) && !(cmp(c, b) < 0)
    ensures !(cmp(c, a) < 0)
  {
    if cmp(c, a) < 0 {
      assert Incomparable(cmp, a, b) && Incomparable(cmp, b, c);
      assert false;
    }
  }

  /** Where `id` goes in the sorted `ids`: everything before is not after it, everything from there on is. */
  method InsertionPoint(ids: seq<int>, cmp: (int, int) -> int, id: int) returns (p: nat)
    requires StrictWeakOrder(cmp) && SortedBy(cmp, ids)
    ensures p <= |ids|
    ensures forall k :: 0 <= k < p ==> !(cmp(id, ids[k]) < 0)
    ensures forall k :: p <= k < |ids| ==> cmp(id, ids[k]) < 0
  {
    p := |ids|;
    while 0 < p && cmp(id, ids[p - 1]) < 0
      invariant p <= |ids|
      invariant forall k :: p <= k < |ids| ==> cmp(id, ids[k]) < 0
    {
      p := p - 1;
    }
    forall k | 0 <= k < p
      ensures !(cmp(id, ids[k]) < 0)
    {
      if k < p - 1 {
        NotLessTransitive(cmp, ids[k], ids[p - 1], id);
      }
    }
  }

  /** slices.SortedFunc over the keys of a map: sorted, and ties in no particular order. */
  method SortedFunc(keys: set<int>, cmp: (int, int) -> int) returns (sorted: seq<int>)
    requires StrictWeakOrder(cmp)
    ensures NoDup(sorted)
    ensures ToSet(sorted) == keys
    ensures SortedBy(cmp, sorted)
  {
    var collected := Collect(keys);
    sorted := [];
    for i := 0 to |collected|
      invariant NoDup(sorted)
      invariant ToSet(sorted) == ToSet(collected[..i])
      invariant SortedBy(cmp, sorted)
    {
      var id := collected[i];
      var p := InsertionPoint(sorted, cmp, id);
      assert collected[..i + 1] == collected[..i] + [id];
      ToSetAppend(collected[..i], id);
      assert id !in ToSet(sorted);
      InsertKeepsSet(sorted, p, id);
      InsertKeepsOrder(cmp, sorted, p, id);
      sorted := Insert(sorted, p, id);
    }
    assert collected[..|collected|] == collected;
  }

  function Insert(ids: seq<int>, p: nat, id: int): seq<int>
    requires p <= |ids|
  {
    ids[..p] + [id] + ids[p..]
  }

  lemma InsertKeepsSet(ids: seq<int>, p: nat, id: int)
    requires p <= |ids|
    requires NoDup(ids) && id !in ToSet(ids)
    ensures NoDup(Insert(ids, p, id))
    ensures ToSet(Insert(ids, p, id)) == ToSet(ids) + {id}
  {
  }

  lemma InsertKeepsOrder(cmp: (int, int) -> int, ids: seq<int>, p: nat, id: int)
    requires StrictWeakOrder(cmp) && SortedBy(cmp, ids)
    requires p <= |ids|
    requires forall k :: 0 <= k < p ==> !(cmp(id, ids[k]) < 0)
    requires forall k :: p <= k < |ids| ==> cmp(id, ids[k]) < 0
    ensures SortedBy(cmp, Insert(ids, p, id))
  {
    var s := Insert(ids, p, id);
    forall i, j | 0 <= i < j < |s|
      ensures !(cmp(s[j], s[i]) < 0)
    {
      if i == p {
        Asymmetric(cmp, id, ids[j - 1]);
      }
    }
  }

  lemma ByScoreIsStrictWeak(scores: Scores)
    ensures StrictWeakOrder(ByScore(scores))
  {
  }

  ghost predicate BestFirst(scores: Scores, ids: seq<int>) {
    forall i, j :: 0 <= i < j < |ids| ==> At(scores, ids[i]) >= At(scores, ids[j])
  }

  /**
   `ids` is a correct answer to "the `limit` best of `scores`": as many distinct scored ids as the limit
   allows, best first, and nothing left out beats anything kept.
   */
  ghost predicate TopK(scores: Scores, limit: nat, ids: seq<int>) {
    && NoDup(ids)
    && ToSet(ids) <= scores.Keys
    && |ids| == (if limit <= |scores| then limit else |scores|)
    && BestFirst(scores, ids)
    && (forall x, k :: x in scores && x !in ids && 0 <= k < |ids| ==> At(scores, ids[k]) >= At(scores, x))
  }

  lemma SortedIsBestFirst(scores: Scores, ids: seq<int>)
    requires SortedBy(ByScore(scores), ids)
    ensures BestFirst(scores, ids)
  {
  }

  /** Sorting all scored ids and cutting at the limit gives a correct answer. */
  lemma SortedPrefixIsTopK(scores: Scores, limit: nat, sorted: seq<int>)
    requires NoDup(sorted) && ToSet(sorted) == scores.Keys && BestFirst(scores, sorted)
    ensures |sorted| == |scores|
    ensures TopK(scores, limit, sorted[..if |sorted| < limit then |sorted| else limit])
  {
    NoDupCardinality(sorted);
    var n := if |sorted| < limit then |sorted| else limit;
    PrefixKeeps(scores, sorted, n);
    PrefixBeats(scores, sorted, n);
  }

  lemma PrefixKeeps(scores: Scores, sorted: seq<int>, n: nat)
    requires n <= |sorted| && NoDup(sorted) && BestFirst(scores, sorted)
    ensures NoDup(sorted[..n]) && BestFirst(scores, sorted[..n]) && ToSet(sorted[..n]) <= ToSet(sorted)
  {
  }

  /** What is cut off beats nothing that is kept. */
  lemma PrefixBeats(scores: Scores, sorted: seq<int>, n: nat)
    requires n <= |sorted| && BestFirst(scores, sorted)
    ensures forall x, k :: x in ToSet(sorted) && x !in sorted[..n] && 0 <= k < n ==>
              At(scores, sorted[..n][k]) >= At(scores, x)
  {
    forall x, k | x in ToSet(sorted) && x !in sorted[..n] && 0 <= k < n
      ensures At(scores, sorted[k]) >= At(scores, x)
    {
      var j :| 0 <= j < |sorted| && sorted[j] == x;
      assert x in sorted[n..];
    }
  }

  lemma {:induction false} BestKey(scores: Scores, keys: set<int>) returns (best: int)
    requires keys != {}
    ensures best in keys && forall id :: id in keys ==> At(scores, id) <= At(scores, best)
  {
    best := Pick(keys);
    if keys != {best} {
      var other := BestKey(scores, keys - {best});
      if At(scores, best) < At(scores, other) {
        best := other;
      }
    }
  }

  lemma {:induction false} BestFirstExists(scores: Scores, keys: set<int>) returns (ids: seq<int>)
    ensures NoDup(ids) && ToSet(ids) == keys && BestFirst(scores, ids)
  {
    ids := [];
    if keys != {} {
      var best := BestKey(scores, keys);
      var rest := BestFirstExists(scores, keys - {best});
      ids := [best] + rest;
      assert forall i :: 0 <= i < |rest| ==> rest[i] in ToSet(rest);
      assert ToSet(ids) == {best} + ToSet(rest);
    }
  }

  /** Every query has a correct answer. */
  lemma TopKExists(scores: Scores, limit: nat)
    ensures exists ids :: TopK(scores, limit, ids)
  {
    var sorted := BestFirstExists(scores, scores.Keys);
    SortedPrefixIsTopK(scores, limit, sorted);
  }

  /** At every position, the answer `a` holds no more than the answer `b`. */
  lemma TopKNoBetter(scores: Scores, limit: nat, a: seq<int>, b: seq<int>, k: nat)
    requires TopK(scores, limit, a) && TopK(scores, limit, b)
    requires k < |a|
    ensures At(scores, a[k]) <= At(scores, b[k])
  {
    NoDupCardinality(b[..k]);
    var x := Pigeonhole(a[..k + 1], ToSet(b[..k]));
    var i :| 0 <= i <= k && a[i] == x;
    assert At(scores, a[k]) <= At(scores, x);
    assert x in ToSet(a);
    if x in b {
      var j :| 0 <= j < |b| && b[j] == x;
      assert b[j] !in b[..k];
    }
  }

  /** Two correct answers hold the same scores, position by position. */
  lemma TopKSameScores(scores: Scores, limit: nat, a: seq<int>, b: seq<int>)
    requires TopK(scores, limit, a) && TopK(scores, limit, b)
    ensures |a| == |b|
    ensures forall k :: 0 <= k < |a| ==> At(scores, a[k]) == At(scores, b[k])
  {
    forall k | 0 <= k < |a|
      ensures At(scores, a[k]) == At(scores, b[k])
    {
      TopKNoBetter(scores, limit, a, b, k);
      TopKNoBetter(scores, limit, b, a, k);
    }
  }

  /** Two correct answers agree on every id whose score is above the lowest score kept: only ties are free. */
  lemma TopKSameAboveCut(scores: Scores, limit: nat, a: seq<int>, b: seq<int>, x: int)
    requires TopK(scores, limit, a) && TopK(scores, limit, b)
    requires a != [] && At(scores, x) > At(scores, a[|a| - 1])
    ensures x in a <==> x in b
    ensures x in scores ==> x in a
  {
    TopKSameScores(scores, limit, a, b);
    if x in a {
      assert x in ToSet(a);
    }
    if x in b {
      assert x in ToSet(b);
    }
  }
}
