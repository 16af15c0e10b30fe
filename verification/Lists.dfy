/** Facts about duplicate-free sequences that the other modules share. */
module Lists {

  predicate NoDup<T(==)>(s: seq<T>) {
    forall i, j :: 0 <= i < j < |s| ==> s[i] != s[j]
  }

  function ToSet<T>(s: seq<T>): set<T> {
    set x | x in s
  }

  lemma ToSetAppend<T>(s: seq<T>, x: T)
    ensures ToSet(s + [x]) == ToSet(s) + {x}
  {
  }

  lemma ToSetSnoc<T>(s: seq<T>)
    requires s != []
    ensures ToSet(s) == ToSet(s[..|s| - 1]) + {s[|s| - 1]}
  {
  }

  /** A duplicate-free sequence is as long as its set of elements is large. */
  lemma {:induction false} NoDupCardinality<T>(s: seq<T>)
    requires NoDup(s)
    ensures |ToSet(s)| == |s|
  {
    if s == [] {
    } else {
      var init := s[..|s| - 1];
      NoDupCardinality(init);
      ToSetSnoc(s);
      assert s[|s| - 1] !in init;
    }
  }

  /** Of a duplicate-free sequence, more than `bound` elements cannot all lie in a set of `bound` elements. */
  lemma Pigeonhole<T>(s: seq<T>, holes: set<T>) returns (x: T)
    requires NoDup(s)
    requires |s| > |holes|
    ensures x in s && x !in holes
  {
    if ToSet(s) <= holes {
      SubsetCardinality(ToSet(s), holes);
      NoDupCardinality(s);
      assert false;
    }
    x :| x in ToSet(s) && x !in holes;
  }

  lemma {:induction false} SubsetCardinality<T>(small: set<T>, large: set<T>)
    requires small <= large
    ensures |small| <= |large|
    ensures |small| == |large| ==> small == large
  {
    if small == {} {
    } else {
      var x :| x in small;
      SubsetCardinality(small - {x}, large - {x});
    }
  }

  lemma Pick<T>(s: set<T>) returns (x: T)
    requires s != {}
    ensures x in s
  {
    x :| x in s;
  }

  lemma ToSetCardinality<T>(s: seq<T>)
    ensures |ToSet(s)| <= |s|
  {
    if s == [] {
    } else {
      ToSetCardinality(s[..|s| - 1]);
      ToSetSnoc(s);
    }
  }

  /** The total of `f` over a finite set. */
  ghost function SumOver<T(!new)>(s: set<T>, f: T -> nat): nat {
    if s == {} then 0 else var x :| x in s; f(x) + SumOver(s - {x}, f)
  }

  lemma {:induction false} SumOverPick<T(!new)>(s: set<T>, f: T -> nat, x: T)
    requires x in s
    ensures SumOver(s, f) == f(x) + SumOver(s - {x}, f)
  {
    var y :| y in s && SumOver(s, f) == f(y) + SumOver(s - {y}, f);
    if x != y {
      SumOverPick(s - {y}, f, x);
      SumOverPick(s - {x}, f, y);
      assert s - {y} - {x} == s - {x} - {y};
    }
  }

  lemma {:induction false} SumOverPointwise<T(!new)>(s: set<T>, f: T -> nat, g: T -> nat, h: T -> nat)
    requires forall x :: x in s ==> h(x) == f(x) + g(x)
    ensures SumOver(s, h) == SumOver(s, f) + SumOver(s, g)
  {
    if s != {} {
      var x :| x in s;
      SumOverPick(s, f, x);
      SumOverPick(s, g, x);
      SumOverPick(s, h, x);
      SumOverPointwise(s - {x}, f, g, h);
    }
  }

  lemma {:induction false} SumOverIndicator<T(!new)>(s: set<T>, members: set<T>, f: T -> nat)
    requires forall x :: x in s ==> f(x) == if x in members then 1 else 0
    ensures SumOver(s, f) == |s * members|
  {
    if s == {} {
      assert s * members == {};
    } else {
      var x :| x in s;
      SumOverPick(s, f, x);
      SumOverIndicator(s - {x}, members, f);
      if x in members {
        assert s * members == (s - {x}) * members + {x};
      } else {
        assert s * members == (s - {x}) * members;
      }
    }
  }

  /** slices.Collect(maps.Keys(m)): the keys in whatever order the map yields them. */
  method Collect<T(==)>(keys: set<T>) returns (s: seq<T>)
    ensures NoDup(s)
    ensures ToSet(s) == keys
  {
    s := [];
    var rest := keys;
    while rest != {}
      invariant rest !! ToSet(s)
      invariant rest + ToSet(s) == keys
      invariant NoDup(s)
      decreases |rest|
    {
      var k :| k in rest;
      ToSetAppend(s, k);
      s, rest := s + [k], rest - {k};
    }
  }
}
