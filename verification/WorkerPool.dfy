/**
 The worker pool of one update run: a producer hands ids over an unbuffered channel to N workers and may be
 cancelled at any moment; each worker fetches, normalises and stores one comic at a time. Every interleaving
 is a sequence of the actions below.
 */
module WorkerPool {
  import opened Lists
  import opened ComicsTable
  import opened Words

  /** What the comics site says about one comic. */
  datatype Info = Info(id: int, url: string, title: string, description: string)

  /** Where a worker goroutine stands; a busy one is about to make the call it is named after. */
  datatype Worker =
    | Idle
    | Getting(id: int)
    | Norming(id: int, info: Info)
    | Adding(id: int, info: Info, row: Row)
    | Exited

  /** How the processing of one id ended: with a new row, or without one. */
  datatype Fate = Stored(info: Info, row: Row) | Skipped | Lost

  datatype Pool = Pool(
    ids: seq<int>,
    next: nat,
    closed: bool,
    cancelled: bool,
    workers: seq<Worker>,
    fates: map<int, Fate>)

  datatype Action =
    | Send(w: nat)                          // the producer hands the next id to an idle worker
    | Abort                                 // the producer sees the cancelled context and closes the channel
    | Close                                 // the producer is through and closes the channel
    | Exit(w: nat)                          // an idle worker finds the channel closed
    | GetOk(w: nat, info: Info)
    | GetNotFound(w: nat)
    | GetFailed(w: nat)
    | NormOk(w: nat, words: seq<string>)
    | NormFailed(w: nat)
    | AddOk(w: nat)
    | AddFailed(w: nat)
    | Cancel                                // the caller's context is cancelled

  predicate Busy(worker: Worker) {
    worker.Getting? || worker.Norming? || worker.Adding?
  }

  function Start(ids: seq<int>, concurrency: nat): Pool {
    Pool(ids, 0, false, false, seq(concurrency, i => Idle), map[])
  }

  /** The WaitGroup is done: no worker is left, so runWorkers returns. */
  predicate Finished(p: Pool) {
    p.closed && forall w :: 0 <= w < |p.workers| ==> p.workers[w].Exited?
  }

  /** The row stored for what the site said: its id and url, and the keywords of title and description. */
  ghost predicate RowFor(lang: Language, info: Info, row: Row) {
    && row.id == info.id && row.url == info.url
    && NoDup(row.words)
    && WordsOf(row) == Keywords(lang, info.title + " " + info.description)
  }

  /** A successful Get(id) is about that id; a successful Norm returns the keywords; an INSERT needs a free key. */
  ghost predicate Enabled(lang: Language, p: Pool, table: Table, a: Action) {
    match a
    case Send(w) => !p.closed && p.next < |p.ids| && w < |p.workers| && p.workers[w].Idle?
    case Abort => !p.closed && p.next < |p.ids| && p.cancelled
    case Close => !p.closed && p.next == |p.ids|
    case Exit(w) => p.closed && w < |p.workers| && p.workers[w].Idle?
    case GetOk(w, info) => w < |p.workers| && p.workers[w].Getting? && info.id == p.workers[w].id
    case GetNotFound(w) => w < |p.workers| && p.workers[w].Getting?
    case GetFailed(w) => w < |p.workers| && p.workers[w].Getting?
    case NormOk(w, words) =>
      w < |p.workers| && p.workers[w].Norming? && NoDup(words)
      && ToSet(words) == Keywords(lang, p.workers[w].info.title + " " + p.workers[w].info.description)
    case NormFailed(w) => w < |p.workers| && p.workers[w].Norming?
    case AddOk(w) => w < |p.workers| && p.workers[w].Adding? && p.workers[w].row.id !in table
    case AddFailed(w) => w < |p.workers| && p.workers[w].Adding?
    case Cancel => !p.cancelled
  }

  /** The worker loops back for its next id. */
  function Finish(p: Pool, w: nat, fate: Fate): Pool
    requires w < |p.workers| && Busy(p.workers[w])
  {
    p.(workers := p.workers[w := Idle], fates := p.fates[p.workers[w].id := fate])
  }

  /** The worker part of `Enabled`, which suffices to say what happens next. */
  predicate InPlace(p: Pool, a: Action) {
    match a
    case Send(w) => p.next < |p.ids| && w < |p.workers|
    case Abort => true
    case Close => true
    case Exit(w) => w < |p.workers|
    case GetOk(w, _) => w < |p.workers| && p.workers[w].Getting?
    case GetNotFound(w) => w < |p.workers| && p.workers[w].Getting?
    case GetFailed(w) => w < |p.workers| && p.workers[w].Getting?
    case NormOk(w, _) => w < |p.workers| && p.workers[w].Norming?
    case NormFailed(w) => w < |p.workers| && p.workers[w].Norming?
    case AddOk(w) => w < |p.workers| && p.workers[w].Adding?
    case AddFailed(w) => w < |p.workers| && p.workers[w].Adding?
    case Cancel => true
  }

  function Next(p: Pool, a: Action): Pool
    requires InPlace(p, a)
  {
    match a
    case Send(w) => p.(next := p.next + 1, workers := p.workers[w := Getting(p.ids[p.next])])
    case Abort => p.(closed := true)
    case Close => p.(closed := true)
    case Exit(w) => p.(workers := p.workers[w := Exited])
    case GetOk(w, info) => p.(workers := p.workers[w := Norming(p.workers[w].id, info)])
    case GetNotFound(w) => Finish(p, w, Skipped)
    case GetFailed(w) => Finish(p, w, Lost)
    case NormOk(w, words) =>
      var info := p.workers[w].info;
      p.(workers := p.workers[w := Adding(p.workers[w].id, info, Row(info.id, info.url, words))])
    case NormFailed(w) => Finish(p, w, Lost)
    case AddOk(w) => Finish(p, w, Stored(p.workers[w].info, p.workers[w].row))
    case AddFailed(w) => Finish(p, w, Lost)
    case Cancel => p.(cancelled := true)
  }

  /** Only a successful INSERT changes the table. */
  function NextTable(p: Pool, table: Table, a: Action): Table
    requires InPlace(p, a)
  {
    if a.AddOk? then table[p.workers[a.w].row.id := p.workers[a.w].row] else table
  }

  // ----- conservation -----

  /** The ids handed out so far. */
  function Dispatched(p: Pool): seq<int>
    requires p.next <= |p.ids|
  {
    p.ids[..p.next]
  }

  function BusyIds(workers: seq<Worker>): set<int> {
    set w | 0 <= w < |workers| && Busy(workers[w]) :: workers[w].id
  }

  /** The ids some worker is busy with. */
  function InFlight(p: Pool): set<int> {
    BusyIds(p.workers)
  }

  /** Every id handed out is with exactly one worker or has exactly one fate. */
  ghost predicate Conserved(p: Pool) {
    && NoDup(p.ids)
    && p.next <= |p.ids|
    && (forall w :: 0 <= w < |p.workers| && Busy(p.workers[w]) ==>
          p.workers[w].id in Dispatched(p) && p.workers[w].id !in p.fates)
    && (forall v, w :: 0 <= v < w < |p.workers| && Busy(p.workers[v]) && Busy(p.workers[w]) ==>
          p.workers[v].id != p.workers[w].id)
    && (forall id :: id in p.fates ==> id in Dispatched(p))
    && (forall id :: id in Dispatched(p) ==> id in p.fates || id in InFlight(p))
    && (p.closed ==> p.next == |p.ids| || p.cancelled)
    && (forall w :: 0 <= w < |p.workers| && p.workers[w].Exited? ==> p.closed)
  }

  lemma StartConserved(ids: seq<int>, concurrency: nat)
    requires NoDup(ids)
    ensures Conserved(Start(ids, concurrency))
  {
  }

  /** Conservation survives every step, whatever the environment answers. */
  lemma StepConserves(lang: Language, p: Pool, table: Table, a: Action)
    requires Conserved(p) && Enabled(lang, p, table, a)
    ensures InPlace(p, a) && Conserved(Next(p, a))
    ensures Next(p, a).ids == p.ids && |Next(p, a).workers| == |p.workers|
  {
    match a
    case Send(w) => SendConserves(p, w);
    case Abort => ControlConserves(p, Next(p, a));
    case Close => ControlConserves(p, Next(p, a));
    case Exit(w) => ReplaceConserves(p, w, Exited);
    case GetOk(w, info) => ReplaceConserves(p, w, Norming(p.workers[w].id, info));
    case GetNotFound(w) => FinishConserves(p, w, Skipped);
    case GetFailed(w) => FinishConserves(p, w, Lost);
    case NormOk(w, words) =>
      var info := p.workers[w].info;
      ReplaceConserves(p, w, Adding(p.workers[w].id, info, Row(info.id, info.url, words)));
    case NormFailed(w) => FinishConserves(p, w, Lost);
    case AddOk(w) => FinishConserves(p, w, Stored(p.workers[w].info, p.workers[w].row));
    case AddFailed(w) => FinishConserves(p, w, Lost);
    case Cancel => ControlConserves(p, Next(p, a));
  }

  /** No id moves. */
  lemma ControlConserves(p: Pool, q: Pool)
    requires Conserved(p) && q == p.(closed := q.closed, cancelled := q.cancelled)
    requires p.closed ==> q.closed
    requires q.closed ==> p.next == |p.ids| || q.cancelled
    ensures Conserved(q)
  {
    assert InFlight(q) == InFlight(p) && Dispatched(q) == Dispatched(p);
  }

  lemma SendConserves(p: Pool, w: nat)
    requires Conserved(p) && !p.closed && p.next < |p.ids| && w < |p.workers| && p.workers[w].Idle?
    ensures Conserved(Next(p, Send(w)))
  {
    var q := Next(p, Send(w));
    var sent := p.ids[p.next];
    assert Dispatched(q) == Dispatched(p) + [sent];
    assert sent !in Dispatched(p);
    assert q.workers[w] == Getting(sent);
    assert forall v :: 0 <= v < |p.workers| && v != w ==> q.workers[v] == p.workers[v];
    forall id | id in Dispatched(q)
      ensures id in q.fates || id in InFlight(q)
    {
      if id == sent {
        assert q.workers[w].id == id;
      } else if id !in p.fates {
        assert id in InFlight(p);
        var v :| 0 <= v < |p.workers| && Busy(p.workers[v]) && p.workers[v].id == id;
        assert q.workers[v].id == id;
      }
    }
  }

  lemma ReplaceConserves(p: Pool, w: nat, worker: Worker)
    requires Conserved(p) && w < |p.workers|
    requires Busy(worker) ==> Busy(p.workers[w]) && worker.id == p.workers[w].id
    requires Busy(p.workers[w]) ==> Busy(worker)
    requires worker.Exited? ==> p.closed
    ensures Conserved(p.(workers := p.workers[w := worker]))
  {
    var q := p.(workers := p.workers[w := worker]);
    forall id | id in InFlight(p)
      ensures id in InFlight(q)
    {
      var v :| 0 <= v < |p.workers| && Busy(p.workers[v]) && p.workers[v].id == id;
      assert Busy(q.workers[v]) && q.workers[v].id == id;
    }
  }

  lemma FinishConserves(p: Pool, w: nat, fate: Fate)
    requires Conserved(p) && w < |p.workers| && Busy(p.workers[w])
    ensures Conserved(Finish(p, w, fate))
  {
    var q := Finish(p, w, fate);
    assert Dispatched(q) == Dispatched(p);
    assert forall v :: 0 <= v < |p.workers| && v != w ==> q.workers[v] == p.workers[v];
    forall id | id in Dispatched(q)
      ensures id in q.fates || id in InFlight(q)
    {
      if id !in q.fates {
        assert id in InFlight(p);
        var v :| 0 <= v < |p.workers| && Busy(p.workers[v]) && p.workers[v].id == id;
        assert q.workers[v].id == id;
      }
    }
  }

  /**
   At any moment: what was handed out is the disjoint union of what is in flight and what is finished, and at
   most one id per worker is in flight. Once the pool is through, nothing is in flight and what was handed out
   is a prefix of the ids, all of them unless the context was cancelled.
   */
  lemma ConservationMeans(p: Pool)
    requires Conserved(p)
    ensures ToSet(Dispatched(p)) == InFlight(p) + p.fates.Keys && InFlight(p) !! p.fates.Keys
    ensures |InFlight(p)| <= |p.workers|
    ensures Finished(p) ==> InFlight(p) == {} && p.fates.Keys == ToSet(Dispatched(p))
    ensures Finished(p) && !p.cancelled ==> Dispatched(p) == p.ids && p.fates.Keys == ToSet(p.ids)
  {
    InFlightBound(p.workers);
    Partition(p);
    if Finished(p) {
      NothingBusy(p);
    }
  }

  lemma NothingBusy(p: Pool)
    requires Conserved(p) && Finished(p)
    ensures InFlight(p) == {}
    ensures !p.cancelled ==> Dispatched(p) == p.ids
  {
  }

  lemma Partition(p: Pool)
    requires Conserved(p)
    ensures ToSet(Dispatched(p)) == InFlight(p) + p.fates.Keys
    ensures InFlight(p) !! p.fates.Keys
  {
    forall id | id in ToSet(Dispatched(p))
      ensures id in InFlight(p) + p.fates.Keys
    {
      assert id in Dispatched(p);
    }
    forall id | id in InFlight(p) + p.fates.Keys
      ensures id in ToSet(Dispatched(p))
    {
      assert id in Dispatched(p);
    }
    assert InFlight(p) + p.fates.Keys == ToSet(Dispatched(p));
  }

  lemma {:induction false} InFlightBound(workers: seq<Worker>)
    ensures |BusyIds(workers)| <= |workers|
  {
    if workers == [] {
      assert BusyIds(workers) == {};
    } else {
      var init, last := workers[..|workers| - 1], workers[|workers| - 1];
      InFlightBound(init);
      var extra := if Busy(last) then {last.id} else {};
      forall id | id in BusyIds(workers)
        ensures id in BusyIds(init) + extra
      {
        var w :| 0 <= w < |workers| && Busy(workers[w]) && workers[w].id == id;
        if w < |init| {
          assert init[w] == workers[w];
        }
      }
      SubsetCardinality(BusyIds(workers), BusyIds(init) + extra);
    }
  }

  // ----- the effect on the table -----

  /** The rows stored so far. */
  function StoredRows(p: Pool): Table {
    map id | id in p.fates && p.fates[id].Stored? :: p.fates[id].row
  }

  /** What a worker holds is what the site said of its id. */
  ghost predicate WorkerTracked(lang: Language, worker: Worker) {
    && (worker.Norming? ==> worker.info.id == worker.id)
    && (worker.Adding? ==> worker.row.id == worker.id && RowFor(lang, worker.info, worker.row))
  }

  ghost predicate FateTracked(lang: Language, id: int, fate: Fate) {
    fate.Stored? ==> fate.row.id == id && RowFor(lang, fate.info, fate.row)
  }

  /** The table is the one the run began with, plus the stored rows; no id of the run was in it. */
  ghost predicate Tracked(lang: Language, p: Pool, base: Table, table: Table) {
    && table == base + StoredRows(p)
    && (forall id :: id in p.ids ==> id !in base)
    && (forall id :: id in p.fates ==> FateTracked(lang, id, p.fates[id]))
    && (forall w :: 0 <= w < |p.workers| ==> WorkerTracked(lang, p.workers[w]))
  }

  lemma StartTracked(lang: Language, ids: seq<int>, concurrency: nat, base: Table)
    requires forall id :: id in ids ==> id !in base
    ensures Tracked(lang, Start(ids, concurrency), base, base)
  {
  }

  lemma StepTracks(lang: Language, p: Pool, base: Table, table: Table, a: Action)
    requires Conserved(p) && Tracked(lang, p, base, table) && Enabled(lang, p, table, a)
    ensures Tracked(lang, Next(p, a), base, NextTable(p, table, a))
  {
    match a
    case Send(w) => ReplaceTracks(lang, p, Next(p, a), base, table, w);
    case Abort => ControlTracks(lang, p, Next(p, a), base, table);
    case Close => ControlTracks(lang, p, Next(p, a), base, table);
    case Exit(w) => ReplaceTracks(lang, p, Next(p, a), base, table, w);
    case GetOk(w, info) => ReplaceTracks(lang, p, Next(p, a), base, table, w);
    case GetNotFound(w) => FinishTracks(lang, p, base, table, w, Skipped);
    case GetFailed(w) => FinishTracks(lang, p, base, table, w, Lost);
    case NormOk(w, words) =>
      assert WorkerTracked(lang, p.workers[w]);
      ReplaceTracks(lang, p, Next(p, a), base, table, w);
    case NormFailed(w) => FinishTracks(lang, p, base, table, w, Lost);
    case AddOk(w) => StoreTracks(lang, p, base, table, w);
    case AddFailed(w) => FinishTracks(lang, p, base, table, w, Lost);
    case Cancel => ControlTracks(lang, p, Next(p, a), base, table);
  }

  lemma ControlTracks(lang: Language, p: Pool, q: Pool, base: Table, table: Table)
    requires Tracked(lang, p, base, table)
    requires q.ids == p.ids && q.fates == p.fates && q.workers == p.workers
    ensures Tracked(lang, q, base, table)
  {
    assert StoredRows(q) == StoredRows(p);
  }

  lemma ReplaceTracks(lang: Language, p: Pool, q: Pool, base: Table, table: Table, w: nat)
    requires Tracked(lang, p, base, table) && w < |p.workers| == |q.workers|
    requires q.ids == p.ids && q.fates == p.fates && q.workers == p.workers[w := q.workers[w]]
    requires WorkerTracked(lang, q.workers[w])
    ensures Tracked(lang, q, base, table)
  {
    assert StoredRows(q) == StoredRows(p);
    assert forall v :: 0 <= v < |p.workers| && v != w ==> q.workers[v] == p.workers[v];
  }

  /** The worker is idle again, and its id has a fate. */
  lemma FateTracks(lang: Language, p: Pool, w: nat, fate: Fate, base: Table, table: Table)
    requires Tracked(lang, p, base, table) && w < |p.workers| && Busy(p.workers[w])
    requires FateTracked(lang, p.workers[w].id, fate)
    ensures Tracked(lang, Finish(p, w, fate), base, base + StoredRows(Finish(p, w, fate)))
  {
    var q := Finish(p, w, fate);
    assert forall v :: 0 <= v < |p.workers| && v != w ==> q.workers[v] == p.workers[v];
  }

  lemma FinishTracks(lang: Language, p: Pool, base: Table, table: Table, w: nat, fate: Fate)
    requires Conserved(p) && Tracked(lang, p, base, table)
    requires w < |p.workers| && Busy(p.workers[w]) && !fate.Stored?
    ensures Tracked(lang, Finish(p, w, fate), base, table)
  {
    FateTracks(lang, p, w, fate, base, table);
    assert p.workers[w].id !in p.fates;
    assert StoredRows(Finish(p, w, fate)) == StoredRows(p);
  }

  lemma StoreTracks(lang: Language, p: Pool, base: Table, table: Table, w: nat)
    requires Conserved(p) && Tracked(lang, p, base, table)
    requires w < |p.workers| && p.workers[w].Adding?
    ensures Tracked(lang, Next(p, AddOk(w)), base, NextTable(p, table, AddOk(w)))
  {
    var worker := p.workers[w];
    assert WorkerTracked(lang, worker);
    FateTracks(lang, p, w, Stored(worker.info, worker.row), base, table);
    StoreRow(p, w, Stored(worker.info, worker.row));
    PlusRow(base, StoredRows(p), worker.id, worker.row);
  }

  lemma PlusRow(base: Table, rows: Table, id: int, row: Row)
    ensures base + rows[id := row] == (base + rows)[id := row]
  {
  }

  lemma StoreRow(p: Pool, w: nat, fate: Fate)
    requires w < |p.workers| && Busy(p.workers[w]) && fate.Stored?
    ensures StoredRows(Finish(p, w, fate)) == StoredRows(p)[p.workers[w].id := fate.row]
  {
    var id := p.workers[w].id;
    var before, after := StoredRows(p), StoredRows(Finish(p, w, fate));
    forall d
      ensures d in after.Keys <==> d == id || d in before.Keys
    {
    }
    assert forall d :: d in after ==> after[d] == if d == id then fate.row else before[d];
  }

  /** A worker about to insert never hits the primary key. */
  lemma NoKeyConflict(lang: Language, p: Pool, base: Table, table: Table, w: nat)
    requires Conserved(p) && Tracked(lang, p, base, table)
    requires w < |p.workers| && p.workers[w].Adding?
    ensures p.workers[w].row.id !in table
    ensures Enabled(lang, p, table, AddOk(w))
  {
    assert WorkerTracked(lang, p.workers[w]);
  }

  /** The rows of the initial table are untouched, and every new row is one an id of the run brought. */
  lemma TableEffect(lang: Language, p: Pool, base: Table, table: Table)
    requires Conserved(p) && Tracked(lang, p, base, table)
    ensures forall id :: id in base ==> id in table && table[id] == base[id]
    ensures forall id :: id in table && id !in base ==>
              id in p.ids && id in p.fates && p.fates[id].Stored? && table[id] == p.fates[id].row
    ensures WellFormed(base) ==> WellFormed(table)
    ensures table.Keys == base.Keys + StoredRows(p).Keys && base.Keys !! StoredRows(p).Keys
  {
    forall id | id in p.fates
      ensures id in p.ids && id !in base
    {
      assert id in Dispatched(p);
    }
    assert forall id :: id in StoredRows(p).Keys ==> id in p.fates;
  }
}
