/** What the inverted index means: posting lists, scores by keyword set, and the answers they must give. */
module InvertedIndex {
  import opened Lists
  import opened ComicsTable
  import opened Ranking

  type Index = map<string, seq<int>>

  type Catalogue = map<int, Comics>

  // ----- the index of a listing -----

  /** The ids of the rows containing `word`, in listing order. */
  function Postings(rows: seq<Row>, word: string): seq<int> {
    if rows == [] then []
    else
      var last := rows[|rows| - 1];
      Postings(rows[..|rows| - 1], word) + (if word in last.words then [last.id] else [])
  }

  function IndexOf(rows: seq<Row>): Index {
    map word | word in Vocabulary(rows) :: Postings(rows, word)
  }

  function CatalogueOf(table: Table): Catalogue {
    map id | id in table :: Comics(id, table[id].url)
  }

  lemma {:induction false} PostingsMember(rows: seq<Row>, word: string, id: int)
    ensures id in Postings(rows, word) <==> exists r :: r in rows && r.id == id && word in WordsOf(r)
  {
    if rows != [] {
      var init := rows[..|rows| - 1];
      var last := rows[|rows| - 1];
      PostingsMember(init, word, id);
      assert rows == init + [last];
      assert last in rows;
    }
  }

  lemma {:induction false} PostingsNoDup(rows: seq<Row>, word: string)
    requires UniqueIds(rows)
    ensures NoDup(Postings(rows, word))
  {
    if rows != [] {
      var init := rows[..|rows| - 1];
      var last := rows[|rows| - 1];
      PostingsNoDup(init, word);
      PostingsMember(init, word, last.id);
      assert last.id !in Postings(init, word);
    }
  }

  /** `x` stands somewhere before `y` in `s`. */
  ghost predicate Before(s: seq<int>, x: int, y: int) {
    exists p, q :: 0 <= p < q < |s| && s[p] == x && s[q] == y
  }

  /** A posting list keeps the order of the listing. */
  lemma {:induction false} PostingsKeepOrder(rows: seq<Row>, word: string, i: nat, j: nat)
    requires i < j < |rows|
    requires word in WordsOf(rows[i]) && word in WordsOf(rows[j])
    ensures Before(Postings(rows, word), rows[i].id, rows[j].id)
  {
    var init := rows[..|rows| - 1];
    var before := Postings(init, word);
    if j < |rows| - 1 {
      PostingsKeepOrder(init, word, i, j);
      var p, q :| 0 <= p < q < |before| && before[p] == rows[i].id && before[q] == rows[j].id;
      assert Postings(rows, word)[p] == rows[i].id && Postings(rows, word)[q] == rows[j].id;
    } else {
      assert init[i] in init;
      PostingsMember(init, word, rows[i].id);
      var p :| 0 <= p < |before| && before[p] == rows[i].id;
      assert Postings(rows, word) == before + [rows[j].id];
      assert Postings(rows, word)[p] == rows[i].id && Postings(rows, word)[|before|] == rows[j].id;
    }
  }

  // ----- representation -----

  /** The pair the search service keeps stands for this table, whatever order its rows came in. */
  ghost predicate Represents(index: Index, comics: Catalogue, table: Table) {
    && (forall word, id :: word in index && id in index[word] ==> id in table && word in WordsOf(table[id]))
    && (forall id, word :: id in table && word in WordsOf(table[id]) ==> word in index && id in index[word])
    && (forall word :: word in index ==> NoDup(index[word]) && index[word] != [])
    && comics == CatalogueOf(table)
  }

  lemma IndexedRows(rows: seq<Row>, table: Table, word: string, id: int)
    requires IsListing(rows, table)
    ensures word in Vocabulary(rows) && id in Postings(rows, word)
            <==> id in table && word in WordsOf(table[id])
  {
    TableOfRows(rows);
    PostingsMember(rows, word, id);
    VocabularyMember(rows, word);
    if id in table {
      assert table[id] in rows;
    }
  }

  lemma PostingsNotEmpty(rows: seq<Row>, word: string)
    requires word in Vocabulary(rows)
    ensures Postings(rows, word) != []
  {
  }

  /** The index of any listing of a table represents the table. */
  lemma IndexOfRepresents(rows: seq<Row>, table: Table)
    requires IsListing(rows, table)
    ensures Represents(IndexOf(rows), CatalogueOf(table), table)
  {
    forall word, id | word in Vocabulary(rows) && id in Postings(rows, word)
      ensures id in table && word in WordsOf(table[id])
    {
      IndexedRows(rows, table, word, id);
    }
    forall id, word | id in table && word in WordsOf(table[id])
      ensures word in Vocabulary(rows) && id in Postings(rows, word)
    {
      IndexedRows(rows, table, word, id);
    }
    forall word | word in Vocabulary(rows)
      ensures NoDup(Postings(rows, word)) && Postings(rows, word) != []
    {
      PostingsNoDup(rows, word);
      PostingsNotEmpty(rows, word);
    }
  }

  // ----- scores -----

  /** How many of the keywords the row contains. */
  function Score(keywords: set<string>, row: Row): nat {
    |keywords * WordsOf(row)|
  }

  /** The rows sharing a keyword with the query, each with the number it shares. */
  function Matches(keywords: set<string>, table: Table): Scores {
    map id | id in table && keywords * WordsOf(table[id]) != {} :: Score(keywords, table[id])
  }

  /** The ids a posting list or a database lookup yields for one word. */
  ghost predicate IsPostingFor(ids: seq<int>, word: string, table: Table) {
    && NoDup(ids)
    && (forall id :: id in ids ==> id in table && word in WordsOf(table[id]))
    && (forall id :: id in table && word in WordsOf(table[id]) ==> id in ids)
  }

  /** Counting one more keyword's ids turns the scores for a set of keywords into those for the larger set. */
  lemma BumpMatches(keywords: set<string>, word: string, table: Table, ids: seq<int>)
    requires word !in keywords
    requires IsPostingFor(ids, word, table)
    ensures Bump(Matches(keywords, table), ids) == Matches(keywords + {word}, table)
  {
    var before, after := Matches(keywords, table), Matches(keywords + {word}, table);
    var bumped := Bump(before, ids);
    BumpDistinct(before, ids);
    forall id: int
      ensures At(bumped, id) == At(after, id)
    {
      ReadOneMore(keywords, word, table, ids, id);
    }
    forall id: int
      ensures id in bumped.Keys <==> id in after.Keys
    {
      ReadOneMore(keywords, word, table, ids, id);
    }
    assert bumped.Keys == after.Keys;
    SameReadings(bumped, after);
  }

  lemma ReadOneMore(keywords: set<string>, word: string, table: Table, ids: seq<int>, id: int)
    requires word !in keywords
    requires IsPostingFor(ids, word, table)
    ensures At(Matches(keywords + {word}, table), id)
         == At(Matches(keywords, table), id) + (if id in ids then 1 else 0)
    ensures id in Matches(keywords + {word}, table) <==> id in Matches(keywords, table) || id in ids
  {
    MatchesAt(keywords, table, id);
    MatchesAt(keywords + {word}, table, id);
    if id in table {
      ScoreOneMore(keywords, word, table[id]);
    }
  }

  lemma SameReadings(a: Scores, b: Scores)
    requires a.Keys == b.Keys
    requires forall id :: At(a, id) == At(b, id)
    ensures a == b
  {
    forall id | id in a.Keys
      ensures a[id] == b[id]
    {
      assert a[id] == At(a, id) && b[id] == At(b, id);
    }
  }

  /** Reading the scores: the matching rows with their scores, zero elsewhere. */
  lemma MatchesAt(keywords: set<string>, table: Table, id: int)
    ensures id in Matches(keywords, table) <==> id in table && Score(keywords, table[id]) > 0
    ensures At(Matches(keywords, table), id) == if id in table then Score(keywords, table[id]) else 0
  {
  }

  lemma ScoreOneMore(keywords: set<string>, word: string, row: Row)
    requires word !in keywords
    ensures Score(keywords + {word}, row) == Score(keywords, row) + (if word in WordsOf(row) then 1 else 0)
  {
    if word in WordsOf(row) {
      assert (keywords + {word}) * WordsOf(row) == keywords * WordsOf(row) + {word};
    } else {
      assert (keywords + {word}) * WordsOf(row) == keywords * WordsOf(row);
    }
  }

  // ----- answers -----

  function Ids(result: seq<Comics>): seq<int> {
    seq(|result|, i requires 0 <= i < |result| => result[i].id)
  }

  /** `result` answers the query on this table: a correct ranked cut, every entry a row of the table. */
  ghost predicate IsAnswer(table: Table, keywords: set<string>, limit: nat, result: seq<Comics>) {
    && TopK(Matches(keywords, table), limit, Ids(result))
    && (forall i :: 0 <= i < |result| ==>
          result[i].id in table && result[i] == Comics(result[i].id, table[result[i].id].url))
  }

  /** Looking up a ranked cut in the catalogue of the table answers the query. */
  lemma LookupsAnswer(table: Table, keywords: set<string>, limit: nat, ids: seq<int>, result: seq<Comics>)
    requires TopK(Matches(keywords, table), limit, ids)
    requires |result| == |ids|
    requires forall i :: 0 <= i < |ids| ==> ids[i] in CatalogueOf(table) && result[i] == CatalogueOf(table)[ids[i]]
    ensures IsAnswer(table, keywords, limit, result)
  {
    assert Ids(result) == ids;
  }

  /** The catalogue's entries for the ids, passing over the ids it does not have. */
  function Present(comics: Catalogue, ids: seq<int>): seq<Comics> {
    if ids == [] then []
    else
      var id := ids[|ids| - 1];
      Present(comics, ids[..|ids| - 1]) + (if id in comics then [comics[id]] else [])
  }

  lemma {:induction false} PresentAll(comics: Catalogue, ids: seq<int>)
    requires forall i :: 0 <= i < |ids| ==> ids[i] in comics
    ensures |Present(comics, ids)| == |ids|
    ensures forall i :: 0 <= i < |ids| ==> Present(comics, ids)[i] == comics[ids[i]]
  {
    if ids != [] {
      PresentAll(comics, ids[..|ids| - 1]);
    }
  }

  /** No ranked id is missing from the catalogue, so passing over the missing ones loses nothing. */
  lemma PresentAnswers(table: Table, keywords: set<string>, limit: nat, ids: seq<int>)
    requires TopK(Matches(keywords, table), limit, ids)
    ensures IsAnswer(table, keywords, limit, Present(CatalogueOf(table), ids))
  {
    assert forall i :: 0 <= i < |ids| ==> ids[i] in ToSet(ids);
    PresentAll(CatalogueOf(table), ids);
    LookupsAnswer(table, keywords, limit, ids, Present(CatalogueOf(table), ids));
  }

  /**
   Any two answers to one query on one table, be they from the index or from the scan, are equally long,
   carry the same scores in the same order and contain the same comics above the cut.
   */
  lemma AnswersAgree(table: Table, keywords: set<string>, limit: nat, fast: seq<Comics>, slow: seq<Comics>)
    requires IsAnswer(table, keywords, limit, fast) && IsAnswer(table, keywords, limit, slow)
    ensures |fast| == |slow|
    ensures forall k :: 0 <= k < |fast| ==>
              Score(keywords, table[fast[k].id]) == Score(keywords, table[slow[k].id])
    ensures forall c: Comics :: fast != [] && c.id in table
                        && Score(keywords, table[c.id]) > Score(keywords, table[fast[|fast| - 1].id])
                        ==> (c in fast <==> c in slow)
  {
    var scores := Matches(keywords, table);
    var a, b := Ids(fast), Ids(slow);
    TopKSameScores(scores, limit, a, b);
    AnswerScores(table, keywords, limit, fast);
    AnswerScores(table, keywords, limit, slow);
    forall k | 0 <= k < |fast|
      ensures Score(keywords, table[fast[k].id]) == Score(keywords, table[slow[k].id])
    {
      assert At(scores, a[k]) == At(scores, b[k]);
    }
    forall c: Comics | fast != [] && c.id in table
                       && Score(keywords, table[c.id]) > Score(keywords, table[fast[|fast| - 1].id])
      ensures c in fast <==> c in slow
    {
      MatchesAt(keywords, table, c.id);
      TopKSameAboveCut(scores, limit, a, b, c.id);
      AnswerMember(table, keywords, limit, fast, c);
      AnswerMember(table, keywords, limit, slow, c);
    }
  }

  lemma AnswerScores(table: Table, keywords: set<string>, limit: nat, result: seq<Comics>)
    requires IsAnswer(table, keywords, limit, result)
    ensures forall k :: 0 <= k < |result| ==>
              result[k].id in table
              && At(Matches(keywords, table), Ids(result)[k]) == Score(keywords, table[result[k].id])
  {
  }

  lemma AnswerMember(table: Table, keywords: set<string>, limit: nat, result: seq<Comics>, c: Comics)
    requires IsAnswer(table, keywords, limit, result)
    ensures c in result <==> c.id in Ids(result) && c.id in table && c == Comics(c.id, table[c.id].url)
  {
    if c in result {
      var i :| 0 <= i < |result| && result[i] == c;
      assert Ids(result)[i] == c.id;
    }
    if c.id in Ids(result) {
      var i :| 0 <= i < |result| && Ids(result)[i] == c.id;
      assert result[i].id == c.id;
    }
  }

  /** A ranked answer is never shorter than the limit and the number of matching comics allow. */
  lemma AnswerLength(table: Table, keywords: set<string>, limit: nat, result: seq<Comics>)
    requires IsAnswer(table, keywords, limit, result)
    ensures |result| == if limit <= |Matches(keywords, table)| then limit else |Matches(keywords, table)|
    ensures limit >= |Matches(keywords, table)| ==> ToSet(Ids(result)) == Matches(keywords, table).Keys
  {
    if limit >= |Matches(keywords, table)| {
      NoDupCardinality(Ids(result));
      SubsetCardinality(ToSet(Ids(result)), Matches(keywords, table).Keys);
    }
  }
}
