/** The `comics` table both services share, and the sequences of rows a SELECT may return for it. */
module ComicsTable {
  import opened Lists

  datatype Row = Row(id: int, url: string, words: seq<string>)

  datatype Comics = Comics(id: int, url: string)

  /** The primary key makes the table a map from id to row. */
  type Table = map<int, Row>

  ghost predicate WellFormed(table: Table) {
    forall id :: id in table ==> table[id].id == id
  }

  ghost predicate UniqueIds(rows: seq<Row>) {
    forall i, j :: 0 <= i < j < |rows| ==> rows[i].id != rows[j].id
  }

  /** The table holding exactly the given rows; of two rows with one id the later stays. */
  function TableOf(rows: seq<Row>): Table {
    if rows == [] then map[]
    else
      var last := rows[|rows| - 1];
      TableOf(rows[..|rows| - 1])[last.id := last]
  }

  /** `rows` is one of the orders in which a SELECT without ORDER BY may return the table. */
  ghost predicate IsListing(rows: seq<Row>, table: Table) {
    UniqueIds(rows) && TableOf(rows) == table
  }

  lemma {:induction false} TableOfKeys(rows: seq<Row>)
    ensures WellFormed(TableOf(rows))
    ensures forall id :: id in TableOf(rows) ==> TableOf(rows)[id] in rows
    ensures forall r :: r in rows ==> r.id in TableOf(rows)
  {
    if rows != [] {
      TableOfKeys(rows[..|rows| - 1]);
      assert rows == rows[..|rows| - 1] + [rows[|rows| - 1]];
    }
  }

  /** In a listing every row is the table's row for its id, and nothing else is in the table. */
  lemma {:induction false} TableOfRows(rows: seq<Row>)
    requires UniqueIds(rows)
    ensures WellFormed(TableOf(rows))
    ensures forall r :: r in rows <==> r.id in TableOf(rows) && TableOf(rows)[r.id] == r
    ensures |TableOf(rows)| == |rows|
  {
    if rows != [] {
      var init := rows[..|rows| - 1];
      var last := rows[|rows| - 1];
      TableOfRows(init);
      assert rows == init + [last];
      TableOfKeys(init);
      assert last.id !in TableOf(init);
      forall r | r in rows
        ensures r.id in TableOf(rows) && TableOf(rows)[r.id] == r
      {
        if r != last {
          assert r in init;
        }
      }
    }
  }

  /** Reading the rows id by id, each id once, lists the table. */
  lemma ListingByIds(rows: seq<Row>, ids: seq<int>, table: Table)
    requires WellFormed(table) && NoDup(ids) && ToSet(ids) == table.Keys
    requires |rows| == |ids|
    requires forall i :: 0 <= i < |ids| ==> ids[i] in table && rows[i] == table[ids[i]]
    ensures IsListing(rows, table)
  {
    TableOfRows(rows);
    forall r: Row
      ensures r in rows <==> r.id in table && table[r.id] == r
    {
      if r.id in table {
        assert r.id in ToSet(ids);
        var i :| 0 <= i < |ids| && ids[i] == r.id;
        assert rows[i] == table[r.id];
      }
    }
    SameRows(TableOf(rows), table);
  }

  lemma SameRows(a: Table, b: Table)
    requires WellFormed(a) && WellFormed(b)
    requires forall r: Row :: (r.id in a && a[r.id] == r) <==> (r.id in b && b[r.id] == r)
    ensures a == b
  {
    forall id | id in a
      ensures id in b && b[id] == a[id]
    {
      assert a[id].id == id;
    }
    forall id | id in b
      ensures id in a
    {
      assert b[id].id == id;
    }
  }

  /** The distinct words of one row. */
  function WordsOf(row: Row): set<string> {
    ToSet(row.words)
  }

  /** All words of all rows. */
  function Vocabulary(rows: seq<Row>): set<string> {
    if rows == [] then {} else Vocabulary(rows[..|rows| - 1]) + WordsOf(rows[|rows| - 1])
  }

  lemma {:induction false} VocabularyMember(rows: seq<Row>, word: string)
    ensures word in Vocabulary(rows) <==> exists r :: r in rows && word in WordsOf(r)
  {
    if rows != [] {
      var init := rows[..|rows| - 1];
      VocabularyMember(init, word);
      assert rows == init + [rows[|rows| - 1]];
      assert rows[|rows| - 1] in rows;
    }
  }
}
