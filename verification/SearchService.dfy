/** The search service: a snapshot index swapped in by BuildIndex, read by ISearch, and Search without it. */
module SearchService {
  import opened Lists
  import opened Results
  import opened ComicsTable
  import opened Ranking
  import opened InvertedIndex
  import Words
  import WordsClient
  import Storage

  /** The loops of BuildIndex: every row is catalogued, every distinct word of it gets the row's id appended. */
  method IndexRows(rows: seq<Row>) returns (newIndex: Index, newComics: Catalogue)
    ensures newIndex == IndexOf(rows)
    ensures newComics == CatalogueOf(TableOf(rows))
  {
    newIndex, newComics := map[], map[];
    for i := 0 to |rows|
      invariant newIndex == IndexOf(rows[..i])
      invariant newComics == CatalogueOf(TableOf(rows[..i]))
    {
      var c := rows[i];
      assert rows[..i + 1] == rows[..i] + [c];
      CatalogueStep(rows[..i], c);
      newComics := newComics[c.id := Comics(c.id, c.url)];
      newIndex := AddWords(rows[..i], c, newIndex);
    }
    assert rows[..|rows|] == rows;
  }

  lemma CatalogueStep(rows: seq<Row>, c: Row)
    ensures CatalogueOf(TableOf(rows + [c])) == CatalogueOf(TableOf(rows))[c.id := Comics(c.id, c.url)]
  {
  }

  /** The inner loop, with its set of words already seen. */
  method AddWords(ghost rows: seq<Row>, c: Row, index: Index) returns (newIndex: Index)
    requires index == IndexOf(rows)
    ensures newIndex == IndexOf(rows + [c])
  {
    newIndex := index;
    var seenWords: set<string> := {};
    PartIndexStart(rows, c.id);
    for j := 0 to |c.words|
      invariant seenWords == ToSet(c.words[..j])
      invariant newIndex == PartIndex(rows, c.id, seenWords)
    {
      var w := c.words[j];
      assert c.words[..j + 1] == c.words[..j] + [w];
      ToSetAppend(c.words[..j], w);
      if w in seenWords {
        assert ToSet(c.words[..j + 1]) == seenWords;
        continue;
      }
      PartIndexStep(rows, c.id, seenWords, w);
      seenWords := seenWords + {w};
      newIndex := newIndex[w := (if w in newIndex then newIndex[w] else []) + [c.id]];
    }
    assert c.words[..|c.words|] == c.words;
    PartIndexComplete(rows, c);
  }

  /** The index of `rows` with `id` appended to the posting lists of the words in `seen`. */
  function PartIndex(rows: seq<Row>, id: int, seen: set<string>): Index {
    map word | word in Vocabulary(rows) + seen :: Postings(rows, word) + (if word in seen then [id] else [])
  }

  lemma PartIndexStart(rows: seq<Row>, id: int)
    ensures PartIndex(rows, id, {}) == IndexOf(rows)
  {
    assert Vocabulary(rows) + {} == Vocabulary(rows);
    assert forall word :: Postings(rows, word) + [] == Postings(rows, word);
  }

  lemma PartIndexStep(rows: seq<Row>, id: int, seen: set<string>, word: string)
    requires word !in seen
    ensures PartIndex(rows, id, seen + {word})
         == PartIndex(rows, id, seen)[word :=
              (if word in PartIndex(rows, id, seen) then PartIndex(rows, id, seen)[word] else []) + [id]]
  {
    VocabularyPostings(rows, word);
    var before, after := PartIndex(rows, id, seen), PartIndex(rows, id, seen + {word});
    assert (if word in before then before[word] else []) == Postings(rows, word);
    assert after.Keys == before.Keys + {word};
  }

  lemma {:induction false} VocabularyPostings(rows: seq<Row>, word: string)
    ensures word !in Vocabulary(rows) ==> Postings(rows, word) == []
  {
    if rows != [] {
      VocabularyPostings(rows[..|rows| - 1], word);
    }
  }

  lemma PartIndexComplete(rows: seq<Row>, c: Row)
    ensures PartIndex(rows, c.id, WordsOf(c)) == IndexOf(rows + [c])
  {
  }

  class Service {
    const db: Storage.DB
    const words: WordsClient.Client
    var index: Index
    var comics: Catalogue
    /** The table the index stands for: that of the last successful List, at first the empty one. */
    ghost var snapshot: Table

    ghost predicate Valid()
      reads this
    {
      Represents(index, comics, snapshot)
    }

    constructor (db: Storage.DB, words: WordsClient.Client)
      ensures Valid() && snapshot == map[]
      ensures this.db == db && this.words == words
    {
      this.db, this.words := db, words;
      index, comics, snapshot := map[], map[], map[];
    }

    method BuildIndex() returns (s: Status)
      requires Valid() && db.Valid()
      modifies this`index, this`comics, this`snapshot, db`exchanges
      ensures Valid()
      ensures Asked(old(db.exchanges), db.exchanges, Storage.Everything, s.Done?)
      ensures s.Done? ==> snapshot == db.table
      ensures s.Failed? ==> s.error == StoreFailed && unchanged(this)
    {
      var listed := db.List();
      if listed.Failure? {
        return Failed(listed.error);
      }
      var newIndex, newComics := IndexRows(listed.value);
      IndexOfRepresents(listed.value, db.table);
      index, comics, snapshot := newIndex, newComics, db.table;
      return Done;
    }

    /** Search through the index. */
    method ISearch(phrase: string, limit: nat) returns (r: Result<seq<Comics>>)
      requires Valid()
      modifies words`exchanges
      ensures Asked(old(words.exchanges), words.exchanges, phrase, r != Failure(NormFailed))
      ensures r != Failure(NormFailed) ==>
                if WordsClient.Bytes(phrase) > WordsClient.MAX_PHRASE_LEN then r == Failure(BadArguments) else r.Success?
      ensures r.Success? ==> IsAnswer(snapshot, Words.Keywords(words.lang, phrase), limit, r.value)
    {
      var normed := words.Norm(phrase);
      if normed.Failure? {
        return Failure(normed.error);
      }
      var scores := CountKeywords(normed.value);
      var sorted := RankAndCut(scores, limit);
      var result := LookUp(sorted);
      PresentAnswers(snapshot, ToSet(normed.value), limit, sorted);
      return Success(result);
    }

    /** Count, for every comic, how many of the keywords' posting lists it is on. */
    method CountKeywords(keywords: seq<string>) returns (scores: Scores)
      requires Valid() && NoDup(keywords)
      ensures scores == Matches(ToSet(keywords), snapshot)
    {
      scores := map[];
      MatchesNothing(snapshot);
      for k := 0 to |keywords|
        invariant scores == Matches(ToSet(keywords[..k]), snapshot)
      {
        var keyword := keywords[k];
        var ids := if keyword in index then index[keyword] else [];
        scores := CountIds(scores, ids);
        NextKeyword(keywords, k);
        IndexedPosting(index, comics, snapshot, keyword);
        BumpMatches(ToSet(keywords[..k]), keyword, snapshot, ids);
      }
      assert keywords[..|keywords|] == keywords;
    }

    /** Replace the ids by the catalogue's entries, passing over the ids it does not have. */
    method LookUp(sorted: seq<int>) returns (result: seq<Comics>)
      ensures result == Present(comics, sorted)
    {
      result := [];
      for i := 0 to |sorted|
        invariant result == Present(comics, sorted[..i])
      {
        var id := sorted[i];
        assert sorted[..i + 1][..i] == sorted[..i];
        if id !in comics {
          continue;
        }
        result := result + [comics[id]];
      }
      assert sorted[..|sorted|] == sorted;
    }

    /** Search straight against the table. */
    method Search(phrase: string, limit: nat) returns (r: Result<seq<Comics>>)
      requires db.Valid()
      modifies words`exchanges, db`exchanges
      ensures Asked(old(words.exchanges), words.exchanges, phrase, r != Failure(NormFailed))
      ensures r != Failure(NormFailed) ==>
                (r == Failure(BadArguments) <==> WordsClient.Bytes(phrase) > WordsClient.MAX_PHRASE_LEN)
      ensures r.Failure? && r.error != StoreFailed ==>
                (r.error == NormFailed || r.error == BadArguments) && db.exchanges == old(db.exchanges)
      ensures Went(old(db.exchanges), db.exchanges, r != Failure(StoreFailed))
      ensures r.Success? ==> IsAnswer(db.table, Words.Keywords(words.lang, phrase), limit, r.value)
    {
      var normed := words.Norm(phrase);
      if normed.Failure? {
        return Failure(normed.error);
      }
      var scores := ScanKeywords(normed.value);
      if scores.Failure? {
        return Failure(scores.error);
      }
      var sorted := RankAndCut(scores.value, limit);
      KeptAreRows(ToSet(normed.value), db.table, scores.value, limit, sorted);
      ghost var middle := db.exchanges;
      r := FetchRows(sorted);
      WentTogether(old(db.exchanges), middle, db.exchanges, r.Success?);
      if r.Success? {
        LookupsAnswer(db.table, ToSet(normed.value), limit, sorted, r.value);
      }
    }

    /** The scores of the rows that contain a keyword, one query a keyword. */
    method ScanKeywords(keywords: seq<string>) returns (r: Result<Scores>)
      requires db.Valid() && NoDup(keywords)
      modifies db`exchanges
      ensures Went(old(db.exchanges), db.exchanges, r.Success?)
      ensures r.Success? ==> |db.exchanges| == old(|db.exchanges|) + |keywords|
      ensures r.Failure? ==> r.error == StoreFailed
      ensures r.Success? ==> r.value == Matches(ToSet(keywords), db.table)
    {
      var scores: Scores := map[];
      ghost var done := {};
      MatchesNothing(db.table);
      for k := 0 to |keywords|
        invariant done == ToSet(keywords[..k]) && scores == Matches(done, db.table)
        invariant Went(old(db.exchanges), db.exchanges, true) && |db.exchanges| == old(|db.exchanges|) + k
      {
        ghost var middle := db.exchanges;
        NextKeyword(keywords, k);
        var counted := ScanKeyword(keywords[k], scores, done);
        WentOn(old(db.exchanges), middle, db.exchanges, Storage.IdsWith(keywords[k]), counted.Success?);
        if counted.Failure? {
          return counted;
        }
        scores, done := counted.value, done + {keywords[k]};
      }
      assert keywords[..|keywords|] == keywords;
      return Success(scores);
    }

    /** One keyword of the scan. */
    method ScanKeyword(keyword: string, scores: Scores, ghost done: set<string>) returns (r: Result<Scores>)
      requires db.Valid() && keyword !in done && scores == Matches(done, db.table)
      modifies db`exchanges
      ensures Asked(old(db.exchanges), db.exchanges, Storage.IdsWith(keyword), r.Success?)
      ensures r.Failure? ==> r.error == StoreFailed
      ensures r.Success? ==> r.value == Matches(done + {keyword}, db.table)
    {
      var found := db.Search(keyword);
      if found.Failure? {
        return Failure(found.error);
      }
      var counted := CountIds(scores, found.value);
      BumpMatches(done, keyword, db.table, found.value);
      return Success(counted);
    }

    /** The comics of the ranked ids, one query an id. */
    method FetchRows(sorted: seq<int>) returns (r: Result<seq<Comics>>)
      requires db.Valid() && forall i :: 0 <= i < |sorted| ==> sorted[i] in db.table
      modifies db`exchanges
      ensures Went(old(db.exchanges), db.exchanges, r.Success?)
      ensures r.Success? ==> |db.exchanges| == old(|db.exchanges|) + |sorted|
      ensures r.Failure? ==> r.error == StoreFailed
      ensures r.Success? ==> |r.value| == |sorted|
      ensures r.Success? ==>
                forall j :: 0 <= j < |sorted| ==> r.value[j] == Comics(sorted[j], db.table[sorted[j]].url)
    {
      var result: seq<Comics> := [];
      for i := 0 to |sorted|
        invariant |result| == i
        invariant Went(old(db.exchanges), db.exchanges, true) && |db.exchanges| == old(|db.exchanges|) + i
        invariant forall j :: 0 <= j < i ==> result[j] == Comics(sorted[j], db.table[sorted[j]].url)
      {
        ghost var middle := db.exchanges;
        var got := db.Get(sorted[i]);
        WentOn(old(db.exchanges), middle, db.exchanges, Storage.RowOf(sorted[i]), got.Success?);
        if got.Failure? {
          return Failure(got.error);
        }
        result := result + [got.value];
      }
      return Success(result);
    }
  }

  /** The loop `scores[id]++`. */
  method CountIds(scores: Scores, ids: seq<int>) returns (counted: Scores)
    ensures counted == Bump(scores, ids)
  {
    counted := scores;
    for j := 0 to |ids|
      invariant counted == Bump(scores, ids[..j])
    {
      assert ids[..j + 1][..j] == ids[..j];
      counted := counted[ids[j] := At(counted, ids[j]) + 1];
    }
    assert ids[..|ids|] == ids;
  }

  /** The sort by descending score and the cut at the limit. */
  method RankAndCut(scores: Scores, limit: nat) returns (sorted: seq<int>)
    ensures TopK(scores, limit, sorted)
  {
    ByScoreIsStrictWeak(scores);
    sorted := SortedFunc(scores.Keys, ByScore(scores));
    SortedIsBestFirst(scores, sorted);
    SortedPrefixIsTopK(scores, limit, sorted);
    var cut := limit;
    if |sorted| < cut {
      cut := |sorted|;
    }
    sorted := sorted[..cut];
  }

  lemma MatchesNothing(table: Table)
    ensures Matches({}, table) == map[]
  {
  }

  /** What is kept of the matches has a row. */
  lemma KeptAreRows(keywords: set<string>, table: Table, scores: Scores, limit: nat, ids: seq<int>)
    requires scores == Matches(keywords, table) && TopK(scores, limit, ids)
    ensures forall i :: 0 <= i < |ids| ==> ids[i] in table
  {
    assert forall i :: 0 <= i < |ids| ==> ids[i] in ToSet(ids);
  }

  lemma NextKeyword(keywords: seq<string>, k: nat)
    requires NoDup(keywords) && k < |keywords|
    ensures keywords[k] !in ToSet(keywords[..k])
    ensures ToSet(keywords[..k + 1]) == ToSet(keywords[..k]) + {keywords[k]}
  {
  }

  /** What the index yields for a word, be it known or not, is the posting of that word. */
  lemma IndexedPosting(index: Index, comics: Catalogue, table: Table, word: string)
    requires Represents(index, comics, table)
    ensures IsPostingFor(if word in index then index[word] else [], word, table)
  {
  }
}
