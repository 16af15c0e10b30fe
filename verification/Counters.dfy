/** The counters the update service reports about the table, and the sizes of the search service's index. */
module Counters {
  import opened Lists
  import opened ComicsTable
  import opened InvertedIndex

  datatype DBStats = DBStats(wordsTotal: nat, wordsUnique: nat, comicsFetched: nat)

  /** SUM(array_length(words, 1)). */
  function WordsTotal(rows: seq<Row>): nat {
    if rows == [] then 0 else WordsTotal(rows[..|rows| - 1]) + |rows[|rows| - 1].words|
  }

  /** The three aggregate queries, over the rows in whatever order. */
  function CountersOf(rows: seq<Row>): DBStats {
    DBStats(WordsTotal(rows), |Vocabulary(rows)|, |rows|)
  }

  ghost function RowLength(table: Table): int -> nat {
    id => if id in table then |table[id].words| else 0
  }

  lemma {:induction false} SumOverSame<T(!new)>(s: set<T>, f: T -> nat, g: T -> nat)
    requires forall x :: x in s ==> f(x) == g(x)
    ensures SumOver(s, f) == SumOver(s, g)
  {
    if s != {} {
      var x :| x in s;
      SumOverPick(s, f, x);
      SumOverPick(s, g, x);
      SumOverSame(s - {x}, f, g);
    }
  }

  lemma {:induction false} WordsTotalByTable(rows: seq<Row>)
    requires UniqueIds(rows)
    ensures WordsTotal(rows) == SumOver(TableOf(rows).Keys, RowLength(TableOf(rows)))
  {
    if rows != [] {
      var init, last := rows[..|rows| - 1], rows[|rows| - 1];
      var before, table := TableOf(init), TableOf(rows);
      WordsTotalByTable(init);
      TableOfKeys(init);
      assert last.id !in before;
      assert table.Keys - {last.id} == before.Keys;
      SumOverPick(table.Keys, RowLength(table), last.id);
      SumOverSame(before.Keys, RowLength(before), RowLength(table));
    }
  }

  lemma VocabularyByTable(rows: seq<Row>, other: seq<Row>)
    requires forall r :: r in rows <==> r in other
    ensures Vocabulary(rows) == Vocabulary(other)
  {
    forall word: string
      ensures word in Vocabulary(rows) <==> word in Vocabulary(other)
    {
      VocabularyMember(rows, word);
      VocabularyMember(other, word);
    }
  }

  /** The counters depend on the table only, not on the order in which its rows are read. */
  lemma CountersOrderFree(rows: seq<Row>, other: seq<Row>, table: Table)
    requires IsListing(rows, table) && IsListing(other, table)
    ensures CountersOf(rows) == CountersOf(other)
    ensures CountersOf(rows).comicsFetched == |table|
  {
    TableOfRows(rows);
    TableOfRows(other);
    WordsTotalByTable(rows);
    WordsTotalByTable(other);
    VocabularyByTable(rows, other);
  }

  // ----- the index -----

  /** The rows' distinct words, added up. */
  function DistinctTotal(rows: seq<Row>): nat {
    if rows == [] then 0 else DistinctTotal(rows[..|rows| - 1]) + |WordsOf(rows[|rows| - 1])|
  }

  ghost function PostingLength(rows: seq<Row>): string -> nat {
    word => |Postings(rows, word)|
  }

  /** The lengths of all posting lists of an index, added up. */
  ghost function IndexSize(index: Index): nat {
    SumOver(index.Keys, word => if word in index then |index[word]| else 0)
  }

  /** Counting the entries of the index by word or by row gives the same number. */
  lemma {:induction false} PostingsByWordOrRow(words: set<string>, rows: seq<Row>)
    requires Vocabulary(rows) <= words
    ensures SumOver(words, PostingLength(rows)) == DistinctTotal(rows)
  {
    if rows == [] {
      SumOverIndicator(words, {}, PostingLength(rows));
      assert words * {} == {};
    } else {
      var init, last := rows[..|rows| - 1], rows[|rows| - 1];
      PostingsByWordOrRow(words, init);
      var contains: string -> nat := word => if word in WordsOf(last) then 1 else 0;
      SumOverIndicator(words, WordsOf(last), contains);
      assert words * WordsOf(last) == WordsOf(last);
      SumOverPointwise(words, PostingLength(init), contains, PostingLength(rows));
    }
  }

  lemma {:induction false} DistinctTotalBound(rows: seq<Row>)
    ensures DistinctTotal(rows) <= WordsTotal(rows)
    ensures DistinctTotal(rows) == WordsTotal(rows) <==> forall r :: r in rows ==> NoDup(r.words)
  {
    if rows != [] {
      var init, last := rows[..|rows| - 1], rows[|rows| - 1];
      DistinctTotalBound(init);
      ToSetCardinality(last.words);
      FullCardinality(last.words);
      assert rows == init + [last];
      assert last in rows;
    }
  }

  lemma {:induction false} FullCardinality<T>(s: seq<T>)
    ensures |ToSet(s)| == |s| <==> NoDup(s)
  {
    if s != [] {
      var init, last := s[..|s| - 1], s[|s| - 1];
      FullCardinality(init);
      ToSetSnoc(s);
      ToSetCardinality(init);
      if NoDup(s) {
        NoDupCardinality(s);
      }
      if |ToSet(s)| == |s| {
        assert last !in ToSet(init);
        assert forall i :: 0 <= i < |init| ==> init[i] in ToSet(init);
      }
    }
  }

  /** The union of the rows' words is no larger than their distinct words added up. */
  lemma {:induction false} VocabularyBound(rows: seq<Row>)
    ensures |Vocabulary(rows)| <= DistinctTotal(rows)
  {
    if rows != [] {
      VocabularyBound(rows[..|rows| - 1]);
      UnionBound(Vocabulary(rows[..|rows| - 1]), WordsOf(rows[|rows| - 1]));
    }
  }

  lemma UnionBound<T>(a: set<T>, b: set<T>)
    ensures |a + b| <= |a| + |b|
  {
  }

  /**
   One table seen by two services: the index has WordsUnique keys, its entries are the rows' distinct words,
   and they are WordsTotal many exactly when no row repeats a word.
   */
  lemma IndexCounters(rows: seq<Row>, table: Table)
    requires IsListing(rows, table)
    ensures |IndexOf(rows)| == CountersOf(rows).wordsUnique
    ensures IndexSize(IndexOf(rows)) == DistinctTotal(rows)
    ensures CountersOf(rows).wordsUnique <= IndexSize(IndexOf(rows)) <= CountersOf(rows).wordsTotal
    ensures IndexSize(IndexOf(rows)) == CountersOf(rows).wordsTotal
            <==> forall id :: id in table ==> NoDup(table[id].words)
  {
    var index := IndexOf(rows);
    assert index.Keys == Vocabulary(rows);
    SumOverSame(index.Keys, PostingLength(rows), word => if word in index then |index[word]| else 0);
    PostingsByWordOrRow(Vocabulary(rows), rows);
    DistinctTotalBound(rows);
    VocabularyBound(rows);
    TableOfRows(rows);
    assert forall id :: id in table ==> table[id] in rows;
  }
}
