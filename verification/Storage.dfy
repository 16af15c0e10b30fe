/** The database as its two adapters use it: a query may go unanswered, and then it has changed nothing. */
module Storage {
  import opened Lists
  import opened Results
  import opened ComicsTable
  import opened InvertedIndex
  import opened Counters

  datatype Query =
    | Everything
    | IdsWith(keyword: string)
    | RowOf(id: int)
    | Insert(row: Row)
    | Ids
    | Truncate
    | CountRows
    | SumWords
    | CountWords

  class DB {
    var table: Table
    /** The queries so far. */
    ghost var exchanges: seq<Exchange<Query>>

    ghost predicate Valid()
      reads this
    {
      WellFormed(table)
    }

    constructor ()
      ensures Valid() && table == map[]
    {
      table, exchanges := map[], [];
    }

    /** The connection: whether it brings an answer is not up to the adapters. */
    method Send(ghost query: Query) returns (ok: bool)
      modifies this`exchanges
      ensures Asked(old(exchanges), exchanges, query, ok)
    {
      ok := *;
      exchanges := exchanges + [Exchange(query, ok)];
    }

    /** SELECT id, url, words FROM comics, in whatever order. */
    method Rows() returns (rows: seq<Row>)
      requires Valid()
      ensures IsListing(rows, table)
    {
      var ids := Collect(table.Keys);
      var t := table;
      assert forall i :: 0 <= i < |ids| ==> ids[i] in ToSet(ids);
      rows := seq(|ids|, i requires 0 <= i < |ids| && ids[i] in t => t[ids[i]]);
      ListingByIds(rows, ids, t);
    }

    /** Read side: the whole table, converted row by row. */
    method List() returns (r: Result<seq<Row>>)
      requires Valid()
      modifies this`exchanges
      ensures Asked(old(exchanges), exchanges, Everything, r.Success?)
      ensures r.Failure? ==> r.error == StoreFailed
      ensures r.Success? ==> IsListing(r.value, table)
    {
      var ok := Send(Everything);
      if !ok {
        return Failure(StoreFailed);
      }
      var rows := Rows();
      var result: seq<Row> := [];
      for i := 0 to |rows|
        invariant result == rows[..i]
      {
        result := result + [Row(rows[i].id, rows[i].url, rows[i].words)];
      }
      assert rows[..|rows|] == rows;
      return Success(result);
    }

    /** Read side: the ids of the rows containing the keyword. */
    method Search(keyword: string) returns (r: Result<seq<int>>)
      requires Valid()
      modifies this`exchanges
      ensures Asked(old(exchanges), exchanges, IdsWith(keyword), r.Success?)
      ensures r.Failure? ==> r.error == StoreFailed
      ensures r.Success? ==> IsPostingFor(r.value, keyword, table)
    {
      var ok := Send(IdsWith(keyword));
      if !ok {
        return Failure(StoreFailed);
      }
      var ids := Collect(set id | id in table.Keys && keyword in table[id].words);
      assert forall id :: id in ids <==> id in ToSet(ids);
      return Success(ids);
    }

    /** Read side: one row by id; a missing row is an error of its own. */
    method Get(id: int) returns (r: Result<Comics>)
      modifies this`exchanges
      ensures Asked(old(exchanges), exchanges, RowOf(id), r != Failure(StoreFailed))
      ensures r != Failure(StoreFailed) ==>
                r == if id in table then Success(Comics(id, table[id].url)) else Failure(NoRows)
    {
      var ok := Send(RowOf(id));
      if !ok {
        return Failure(StoreFailed);
      }
      if id !in table {
        return Failure(NoRows);
      }
      return Success(Comics(id, table[id].url));
    }

    /** Write side: one INSERT, refused when the id is taken. */
    method Add(row: Row) returns (s: Status)
      requires Valid()
      modifies this
      ensures Valid()
      ensures Asked(old(exchanges), exchanges, Insert(row), s != Failed(StoreFailed))
      ensures s != Failed(StoreFailed) ==> s == if old(row.id in table) then Failed(DuplicateKey) else Done
      ensures table == if s.Done? then old(table)[row.id := row] else old(table)
    {
      var ok := Send(Insert(row));
      if !ok {
        return Failed(StoreFailed);
      }
      if row.id in table {
        return Failed(DuplicateKey);
      }
      table := table[row.id := row];
      return Done;
    }

    /** Write side: all ids, in whatever order. */
    method IDs() returns (r: Result<seq<int>>)
      modifies this`exchanges
      ensures Asked(old(exchanges), exchanges, Ids, r.Success?)
      ensures r.Failure? ==> r.error == StoreFailed
      ensures r.Success? ==> ToSet(r.value) == table.Keys && NoDup(r.value)
    {
      var ok := Send(Ids);
      if !ok {
        return Failure(StoreFailed);
      }
      var ids := Collect(table.Keys);
      return Success(ids);
    }

    /** Write side: TRUNCATE. */
    method Drop() returns (s: Status)
      modifies this
      ensures Asked(old(exchanges), exchanges, Truncate, s.Done?)
      ensures s.Done? ==> table == map[]
      ensures s.Failed? ==> s.error == StoreFailed && table == old(table)
    {
      var ok := Send(Truncate);
      if !ok {
        return Failed(StoreFailed);
      }
      table := map[];
      return Done;
    }

    /** Write side: the three aggregate queries, one after the other. */
    method Stats() returns (r: Result<DBStats>)
      requires Valid()
      modifies this`exchanges
      ensures old(exchanges) < exchanges && Went(old(exchanges), exchanges, r.Success?)
      ensures r.Failure? ==> r.error == StoreFailed
      ensures r.Success? ==> forall rows :: IsListing(rows, table) ==> r.value == CountersOf(rows)
      ensures r.Success? ==> r.value.comicsFetched == |table| && r.value.wordsUnique <= r.value.wordsTotal
    {
      var ok := Send(CountRows);
      if !ok {
        return Failure(StoreFailed);
      }
      var fetched := |table|;
      ok := Send(SumWords);
      if !ok {
        return Failure(StoreFailed);
      }
      var rows := Rows();
      var total := WordsTotal(rows);
      ok := Send(CountWords);
      if !ok {
        return Failure(StoreFailed);
      }
      var unique := |Vocabulary(rows)|;
      TableOfRows(rows);
      IndexCounters(rows, table);
      forall other | IsListing(other, table)
        ensures CountersOf(other) == DBStats(total, unique, fetched)
      {
        CountersOrderFree(rows, other, table);
      }
      return Success(DBStats(total, unique, fetched));
    }
  }
}
