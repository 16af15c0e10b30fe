/** How queries combine: asking for two phrases at once, on a fixed table. */
module QueryAlgebra {
  import opened Lists
  import opened ComicsTable
  import opened InvertedIndex
  import opened Ranking
  import opened Words

  /**
   A comic matches "a b" exactly when it matches a or b, and its score lies between the larger of the two
   separate scores and their sum.
   */
  lemma JoinedQuery(lang: Language, table: Table, a: string, b: string, id: int)
    requires !lang.wordChar(' ')
    ensures id in Matches(Keywords(lang, a + " " + b), table)
            <==> id in Matches(Keywords(lang, a), table) || id in Matches(Keywords(lang, b), table)
    ensures At(Matches(Keywords(lang, a), table), id) <= At(Matches(Keywords(lang, a + " " + b), table), id)
    ensures At(Matches(Keywords(lang, b), table), id) <= At(Matches(Keywords(lang, a + " " + b), table), id)
    ensures At(Matches(Keywords(lang, a + " " + b), table), id)
         <= At(Matches(Keywords(lang, a), table), id) + At(Matches(Keywords(lang, b), table), id)
  {
    KeywordsJoin(lang, a, ' ', b);
    var ka, kb := Keywords(lang, a), Keywords(lang, b);
    MatchesAt(ka, table, id);
    MatchesAt(kb, table, id);
    MatchesAt(ka + kb, table, id);
    if id in table {
      ScoreUnion(ka, kb, table[id]);
    }
  }

  lemma ScoreUnion(ka: set<string>, kb: set<string>, row: Row)
    ensures Score(ka, row) <= Score(ka + kb, row)
    ensures Score(kb, row) <= Score(ka + kb, row)
    ensures Score(ka + kb, row) <= Score(ka, row) + Score(kb, row)
  {
    var ra, rb := ka * WordsOf(row), kb * WordsOf(row);
    assert (ka + kb) * WordsOf(row) == ra + rb;
    SubsetCardinality(ra, ra + rb);
    SubsetCardinality(rb, ra + rb);
    assert ra + rb == ra + (rb - ra);
    SubsetCardinality(rb - ra, rb);
  }

  /** What the update service stores for a comic: the keywords of its title and of its description. */
  lemma IndexesTitleAndDescription(lang: Language, title: string, description: string, row: Row, query: string)
    requires !lang.wordChar(' ')
    requires WordsOf(row) == Keywords(lang, title + " " + description)
    ensures WordsOf(row) == Keywords(lang, title) + Keywords(lang, description)
    ensures Score(Keywords(lang, query), row) > 0
            <==> exists w :: w in Keywords(lang, query) && (w in Keywords(lang, title) || w in Keywords(lang, description))
  {
    KeywordsJoin(lang, title, ' ', description);
    var shared := Keywords(lang, query) * WordsOf(row);
    if shared != {} {
      var w :| w in shared;
    }
    if w :| w in Keywords(lang, query) && (w in Keywords(lang, title) || w in Keywords(lang, description)) {
      assert w in shared;
    }
  }
}
