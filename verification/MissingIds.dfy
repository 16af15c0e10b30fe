/** The gap computation of the update service: which comics of 1..lastID the table does not have. */
module MissingIds {
  import opened Lists

  /** The ids of 1..last outside `existing`, in increasing order. */
  function Missing(last: int, existing: set<int>): seq<int>
    decreases last
  {
    if last <= 0 then []
    else Missing(last - 1, existing) + (if last in existing then [] else [last])
  }

  ghost predicate Increasing(s: seq<int>) {
    forall i, j :: 0 <= i < j < |s| ==> s[i] < s[j]
  }

  /** The existing ids that lie in 1..last. */
  function InRange(existing: set<int>, last: int): set<int> {
    set id | id in existing && 1 <= id <= last
  }

  /** The gap is exactly 1..last minus the existing ids, once each and in order. */
  lemma {:induction false} MissingExact(last: int, existing: set<int>)
    ensures Increasing(Missing(last, existing))
    ensures forall id :: id in Missing(last, existing) <==> 1 <= id <= last && id !in existing
    decreases last
  {
    if last > 0 {
      MissingExact(last - 1, existing);
      var before := Missing(last - 1, existing);
      forall i | 0 <= i < |before|
        ensures before[i] < last
      {
        assert before[i] in before;
      }
    }
  }

  /** The gap is as long as 1..last minus the distinct existing ids in that range. */
  lemma {:induction false} MissingLength(last: int, existing: set<int>)
    ensures |Missing(last, existing)| == (if last <= 0 then 0 else last - |InRange(existing, last)|)
    decreases last
  {
    if last > 0 {
      MissingLength(last - 1, existing);
      var before := InRange(existing, last - 1);
      if last == 1 {
        assert before == {};
      }
      if last in existing {
        assert InRange(existing, last) == before + {last};
      } else {
        assert InRange(existing, last) == before;
      }
    }
  }

  lemma IncreasingNoDup(s: seq<int>)
    requires Increasing(s)
    ensures NoDup(s)
  {
  }

  function Without(s: seq<int>, gone: set<int>): seq<int> {
    if s == [] then []
    else Without(s[..|s| - 1], gone) + (if s[|s| - 1] in gone then [] else [s[|s| - 1]])
  }

  /** Storing some ids removes exactly those from the gap: the next run asks for the rest, in the same order. */
  lemma {:induction false} MissingAfterStoring(last: int, existing: set<int>, stored: set<int>)
    ensures Missing(last, existing + stored) == Without(Missing(last, existing), stored)
    decreases last
  {
    if last > 0 {
      MissingAfterStoring(last - 1, existing, stored);
      var before := Missing(last - 1, existing);
      if last in existing {
        assert Missing(last, existing) == before;
      } else {
        assert Missing(last, existing)[..|before|] == before;
      }
    }
  }
}
