/**
 The words service: a phrase is cut at every character that is neither a letter nor a digit, stop words
 are dropped, the rest is stemmed and collected without duplicates.
 */
module Words {
  import opened Lists

  /** The parts the standard library and the stemmer contribute, left uninterpreted. */
  datatype Language = Language(
    wordChar: char -> bool,
    lower: string -> string,
    stopWord: string -> bool,
    stem: string -> string)

  /** How many leading characters of `s` are word characters. */
  function RunLength(lang: Language, s: string): (n: nat)
    ensures n <= |s|
    ensures forall k :: 0 <= k < n ==> lang.wordChar(s[k])
    ensures n < |s| ==> !lang.wordChar(s[n])
  {
    if s == "" || !lang.wordChar(s[0]) then 0 else 1 + RunLength(lang, s[1..])
  }

  /** strings.FieldsFunc: the runs of word characters, from left to right. */
  function Fields(lang: Language, s: string): seq<string>
    decreases |s|
  {
    if s == "" then []
    else if !lang.wordChar(s[0]) then Fields(lang, s[1..])
    else
      var n := RunLength(lang, s);
      [s[..n]] + Fields(lang, s[n..])
  }

  /** `s[i..j]` is a run of word characters that cannot be extended on either side. */
  ghost predicate MaximalRun(lang: Language, s: string, i: int, j: int) {
    && 0 <= i < j <= |s|
    && (forall k :: i <= k < j ==> lang.wordChar(s[k]))
    && (i == 0 || !lang.wordChar(s[i - 1]))
    && (j == |s| || !lang.wordChar(s[j]))
  }

  /** The fields are exactly the maximal runs. */
  lemma {:induction false} FieldsAreMaximalRuns(lang: Language, s: string, t: string)
    ensures t in Fields(lang, s) <==> exists i, j :: MaximalRun(lang, s, i, j) && s[i..j] == t
    decreases |s|
  {
    if s == "" {
    } else {
      var n := if lang.wordChar(s[0]) then RunLength(lang, s) else 1;
      var rest := s[n..];
      FieldsAreMaximalRuns(lang, rest, t);
      if t in Fields(lang, s) {
        if lang.wordChar(s[0]) && t == s[..n] {
          assert MaximalRun(lang, s, 0, n) && s[0..n] == t;
        } else {
          var i, j :| MaximalRun(lang, rest, i, j) && rest[i..j] == t;
          RunInTail(lang, s, n, i, j);
        }
      }
      if i, j :| MaximalRun(lang, s, i, j) && s[i..j] == t {
        RunFromTail(lang, s, n, i, j);
      }
    }
  }

  /** Where the fields are cut: `n` is one separator, or the whole first run. */
  ghost predicate FirstCut(lang: Language, s: string, n: nat) {
    s != "" && n == if lang.wordChar(s[0]) then RunLength(lang, s) else 1
  }

  lemma SliceOfTail(s: string, n: nat, i: int, j: int)
    requires n <= |s| && 0 <= i <= j <= |s| - n
    ensures s[n..][i..j] == s[n + i..n + j]
  {
  }

  lemma {:induction false} RunLengthIs(lang: Language, s: string, j: nat)
    requires j <= |s| && (forall k :: 0 <= k < j ==> lang.wordChar(s[k])) && (j == |s| || !lang.wordChar(s[j]))
    ensures RunLength(lang, s) == j
  {
    if j > 0 {
      RunLengthIs(lang, s[1..], j - 1);
    }
  }

  lemma RunInTail(lang: Language, s: string, n: nat, i: int, j: int)
    requires FirstCut(lang, s, n)
    requires MaximalRun(lang, s[n..], i, j)
    ensures MaximalRun(lang, s, n + i, n + j) && s[n + i..n + j] == s[n..][i..j]
  {
    var rest := s[n..];
    forall k | n + i <= k < n + j
      ensures lang.wordChar(s[k])
    {
      assert s[k] == rest[k - n];
    }
    if i > 0 {
      assert s[n + i - 1] == rest[i - 1];
    } else {
      assert s[n] == rest[0];
    }
    if n + j < |s| {
      assert s[n + j] == rest[j];
    }
    SliceOfTail(s, n, i, j);
  }

  lemma RunFromTail(lang: Language, s: string, n: nat, i: int, j: int)
    requires FirstCut(lang, s, n)
    requires MaximalRun(lang, s, i, j)
    ensures i == 0 ==> lang.wordChar(s[0]) && j == n
    ensures i != 0 ==> MaximalRun(lang, s[n..], i - n, j - n) && s[n..][i - n..j - n] == s[i..j]
  {
    if i == 0 {
      RunLengthIs(lang, s, j);
    } else {
      assert n <= i;
      var rest := s[n..];
      forall k | i - n <= k < j - n
        ensures lang.wordChar(rest[k])
      {
        assert rest[k] == s[n + k];
      }
      assert i > n ==> rest[i - n - 1] == s[i - 1];
      assert j < |s| ==> rest[j - n] == s[j];
      SliceOfTail(s, n, i - n, j - n);
    }
  }

  /** The fields lie at these places, one after the other with a gap between them. */
  ghost predicate LieAt(lang: Language, s: string, fields: seq<string>, starts: seq<int>, ends: seq<int>) {
    && |starts| == |fields| && |ends| == |fields|
    && (forall k :: 0 <= k < |starts| ==>
          MaximalRun(lang, s, starts[k], ends[k]) && fields[k] == s[starts[k]..ends[k]])
    && (forall k, l :: 0 <= k < l < |starts| ==> ends[k] < starts[l])
  }

  /** Every maximal run is at one of these places. */
  ghost predicate CoverRuns(lang: Language, s: string, starts: seq<int>, ends: seq<int>)
    requires |starts| == |ends|
  {
    forall i, j :: MaximalRun(lang, s, i, j) ==> exists k :: 0 <= k < |starts| && starts[k] == i && ends[k] == j
  }

  function Shift(places: seq<int>, n: int): (shifted: seq<int>)
    ensures |shifted| == |places| && forall k :: 0 <= k < |places| ==> shifted[k] == n + places[k]
  {
    seq(|places|, k requires 0 <= k < |places| => n + places[k])
  }

  lemma ShiftLieAt(lang: Language, s: string, n: nat, fields: seq<string>, starts: seq<int>, ends: seq<int>)
    requires FirstCut(lang, s, n) && n <= |s| && LieAt(lang, s[n..], fields, starts, ends)
    ensures LieAt(lang, s, fields, Shift(starts, n), Shift(ends, n))
    ensures lang.wordChar(s[0]) ==> forall k :: 0 <= k < |starts| ==> n < Shift(starts, n)[k]
  {
    forall k | 0 <= k < |starts|
      ensures MaximalRun(lang, s, n + starts[k], n + ends[k]) && fields[k] == s[n + starts[k]..n + ends[k]]
      ensures lang.wordChar(s[0]) ==> starts[k] != 0
    {
      RunInTail(lang, s, n, starts[k], ends[k]);
    }
  }

  lemma FirstLiesAt(lang: Language, s: string, n: nat, fields: seq<string>, starts: seq<int>, ends: seq<int>)
    requires FirstCut(lang, s, n) && lang.wordChar(s[0]) && LieAt(lang, s, fields, starts, ends)
    requires forall k :: 0 <= k < |starts| ==> n < starts[k]
    ensures LieAt(lang, s, [s[..n]] + fields, [0] + starts, [n] + ends)
  {
    assert MaximalRun(lang, s, 0, n);
  }

  /** The runs past the first cut. */
  lemma ShiftCoverRuns(lang: Language, s: string, n: nat, starts: seq<int>, ends: seq<int>, i: int, j: int)
    returns (k: int)
    requires FirstCut(lang, s, n) && n <= |s| && |starts| == |ends| && CoverRuns(lang, s[n..], starts, ends)
    requires MaximalRun(lang, s, i, j) && i != 0
    ensures 0 <= k < |starts| && Shift(starts, n)[k] == i && Shift(ends, n)[k] == j
  {
    RunFromTail(lang, s, n, i, j);
    k :| 0 <= k < |starts| && starts[k] == i - n && ends[k] == j - n;
  }

  lemma CutCoversRuns(lang: Language, s: string, n: nat, starts: seq<int>, ends: seq<int>)
    requires FirstCut(lang, s, n) && n <= |s| && |starts| == |ends| && CoverRuns(lang, s[n..], starts, ends)
    ensures if lang.wordChar(s[0]) then CoverRuns(lang, s, [0] + Shift(starts, n), [n] + Shift(ends, n))
            else CoverRuns(lang, s, Shift(starts, n), Shift(ends, n))
  {
    var first := if lang.wordChar(s[0]) then 1 else 0;
    var allStarts := (if lang.wordChar(s[0]) then [0] else []) + Shift(starts, n);
    var allEnds := (if lang.wordChar(s[0]) then [n] else []) + Shift(ends, n);
    forall i, j | MaximalRun(lang, s, i, j)
      ensures exists k :: 0 <= k < |allStarts| && allStarts[k] == i && allEnds[k] == j
    {
      if i == 0 {
        RunFromTail(lang, s, n, i, j);
        assert allStarts[0] == i && allEnds[0] == j;
      } else {
        var k := ShiftCoverRuns(lang, s, n, starts, ends, i, j);
        assert allStarts[first + k] == i && allEnds[first + k] == j;
      }
    }
    assert !lang.wordChar(s[0]) ==> allStarts == Shift(starts, n) && allEnds == Shift(ends, n);
  }

  /** The fields come from left to right, each from a place of its own, and no maximal run is left out. */
  lemma {:induction false} FieldsInOrder(lang: Language, s: string) returns (starts: seq<int>, ends: seq<int>)
    ensures LieAt(lang, s, Fields(lang, s), starts, ends)
    ensures CoverRuns(lang, s, starts, ends)
    decreases |s|
  {
    starts, ends := [], [];
    if s != "" {
      var n := if lang.wordChar(s[0]) then RunLength(lang, s) else 1;
      var fields := Fields(lang, s[n..]);
      var first, last := FieldsInOrder(lang, s[n..]);
      ShiftLieAt(lang, s, n, fields, first, last);
      starts, ends := Shift(first, n), Shift(last, n);
      if lang.wordChar(s[0]) {
        FirstLiesAt(lang, s, n, fields, starts, ends);
        starts, ends := [0] + starts, [n] + ends;
      }
      CutCoversRuns(lang, s, n, first, last);
    }
  }

  /** A separator cuts: the fields of two texts joined by one are the fields of the first, then of the second. */
  lemma {:induction false} FieldsJoin(lang: Language, a: string, sep: char, b: string)
    requires !lang.wordChar(sep)
    ensures Fields(lang, a + [sep] + b) == Fields(lang, a) + Fields(lang, b)
    decreases |a|
  {
    var s := a + [sep] + b;
    if a == "" {
      assert s[1..] == b;
    } else if !lang.wordChar(a[0]) {
      assert s[1..] == a[1..] + [sep] + b;
      FieldsJoin(lang, a[1..], sep, b);
    } else {
      var n := RunLength(lang, a);
      RunLengthJoin(lang, a, sep, b);
      assert s[..n] == a[..n] && s[n..] == a[n..] + [sep] + b;
      FieldsJoin(lang, a[n..], sep, b);
      assert Fields(lang, s) == [a[..n]] + (Fields(lang, a[n..]) + Fields(lang, b));
    }
  }

  lemma {:induction false} RunLengthJoin(lang: Language, a: string, sep: char, b: string)
    requires !lang.wordChar(sep)
    ensures RunLength(lang, a + [sep] + b) == RunLength(lang, a)
  {
    var s := a + [sep] + b;
    if a != "" && lang.wordChar(a[0]) {
      assert s[1..] == a[1..] + [sep] + b;
      RunLengthJoin(lang, a[1..], sep, b);
    }
  }

  /** The stems of the tokens that are no stop words. */
  function Stems(lang: Language, tokens: seq<string>): set<string> {
    set t | t in tokens && !lang.stopWord(lang.lower(t)) :: lang.stem(lang.lower(t))
  }

  lemma StemsAppend(lang: Language, tokens: seq<string>, t: string)
    ensures Stems(lang, tokens + [t])
         == Stems(lang, tokens) + (if lang.stopWord(lang.lower(t)) then {} else {lang.stem(lang.lower(t))})
  {
  }

  lemma StemsConcat(lang: Language, a: seq<string>, b: seq<string>)
    ensures Stems(lang, a + b) == Stems(lang, a) + Stems(lang, b)
  {
  }

  /** The keywords of a phrase, as a set. */
  function Keywords(lang: Language, phrase: string): set<string> {
    Stems(lang, Fields(lang, phrase))
  }

  /** A keyword is the stem of some maximal run that is no stop word, and nothing else is. */
  lemma KeywordsMeaning(lang: Language, phrase: string, word: string)
    ensures word in Keywords(lang, phrase) <==>
            exists i, j :: MaximalRun(lang, phrase, i, j)
                           && !lang.stopWord(lang.lower(phrase[i..j]))
                           && word == lang.stem(lang.lower(phrase[i..j]))
  {
    if word in Keywords(lang, phrase) {
      var t :| t in Fields(lang, phrase) && !lang.stopWord(lang.lower(t)) && word == lang.stem(lang.lower(t));
      FieldsAreMaximalRuns(lang, phrase, t);
    }
    if i, j :| MaximalRun(lang, phrase, i, j)
               && !lang.stopWord(lang.lower(phrase[i..j])) && word == lang.stem(lang.lower(phrase[i..j])) {
      FieldsAreMaximalRuns(lang, phrase, phrase[i..j]);
    }
  }

  /** Joining two texts by a separator unites their keywords. */
  lemma KeywordsJoin(lang: Language, a: string, sep: char, b: string)
    requires !lang.wordChar(sep)
    ensures Keywords(lang, a + [sep] + b) == Keywords(lang, a) + Keywords(lang, b)
  {
    FieldsJoin(lang, a, sep, b);
    StemsConcat(lang, Fields(lang, a), Fields(lang, b));
  }

  /** The words that survive the stop-word filter, collected in the order the map yields its keys. */
  method Norm(lang: Language, phrase: string) returns (words: seq<string>)
    ensures NoDup(words)
    ensures ToSet(words) == Keywords(lang, phrase)
  {
    var stems: set<string> := {};
    var tokens := Fields(lang, phrase);
    for i := 0 to |tokens|
      invariant stems == Stems(lang, tokens[..i])
    {
      var w := lang.lower(tokens[i]);
      assert tokens[..i + 1] == tokens[..i] + [tokens[i]];
      StemsAppend(lang, tokens[..i], tokens[i]);
      if lang.stopWord(w) {
        continue;
      }
      stems := stems + {lang.stem(w)};
    }
    assert tokens[..|tokens|] == tokens;
    words := Collect(stems);
  }
}
