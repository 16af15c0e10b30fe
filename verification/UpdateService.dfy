/** The update service as one caller sees it, with the worker pool scheduled in any order whatever. */
module UpdateService {
  import opened Lists
  import opened Results
  import opened ComicsTable
  import opened MissingIds
  import opened WorkerPool
  import opened WorkerPoolRuns
  import opened Counters
  import Words
  import WordsClient
  import Storage

  datatype Page = Latest | Comic(id: int)

  /** The comics site: a page may not come, but what it says about a comic is about that comic. */
  class XKCD {
    const latest: int
    const comics: map<int, Info>
    /** The pages asked for so far. */
    ghost var exchanges: seq<Exchange<Page>>

    constructor (latest: int, comics: map<int, Info>)
      ensures this.latest == latest && this.comics == comics
    {
      this.latest, this.comics := latest, comics;
      exchanges := [];
    }

    /** The network: whether a page comes is not up to the adapter. */
    method Send(ghost page: Page) returns (ok: bool)
      modifies this`exchanges
      ensures Asked(old(exchanges), exchanges, page, ok)
    {
      ok := *;
      exchanges := exchanges + [Exchange(page, ok)];
    }

    method Get(id: int) returns (r: Result<Info>)
      modifies this`exchanges
      ensures Asked(old(exchanges), exchanges, Comic(id), r != Failure(SourceFailed))
      ensures r != Failure(SourceFailed) ==>
                r == if id in comics then Success(Said(comics, id)) else Failure(NotFound)
    {
      var ok := Send(Comic(id));
      if !ok {
        return Failure(SourceFailed);
      }
      if id !in comics {
        return Failure(NotFound);
      }
      return Success(Said(comics, id));
    }

    method LastID() returns (r: Result<int>)
      modifies this`exchanges
      ensures Asked(old(exchanges), exchanges, Latest, r.Success?)
      ensures r == if r.Success? then Success(latest) else Failure(SourceFailed)
    {
      var ok := Send(Latest);
      if !ok {
        return Failure(SourceFailed);
      }
      return Success(latest);
    }
  }

  /** What the site says about a comic it has. */
  function Said(comics: map<int, Info>, id: int): Info
    requires id in comics
  {
    comics[id].(id := id)
  }

  /** The caller's context: it may be cancelled whenever nobody looks, and stays so. */
  class Context {
    var cancelled: bool

    constructor ()
    {
      cancelled := *;
    }

    method Done() returns (done: bool)
      modifies this
      ensures done == cancelled
      ensures old(cancelled) ==> cancelled
    {
      if * {
        cancelled := true;
      }
      done := cancelled;
    }
  }

  /** The message broker: attempts are counted, and any may fail. */
  class Notifier {
    var attempts: nat

    constructor ()
      ensures attempts == 0
    {
      attempts := 0;
    }

    method Notify() returns (s: Status)
      modifies this
      ensures attempts == old(attempts) + 1
    {
      attempts := attempts + 1;
      if * {
        return Failed(NotifyFailed);
      }
      return Done;
    }
  }

  datatype ServiceStatus = StatusRunning | StatusIdle

  datatype ServiceStats = ServiceStats(db: DBStats, comicsTotal: int)

  /** What is normalised of a comic. */
  function Text(info: Info): string {
    info.title + " " + info.description
  }

  /** The site has the comic, and the words service takes its text. */
  predicate Obtainable(comics: map<int, Info>, id: int) {
    id in comics && WordsClient.Bytes(Text(Said(comics, id))) <= WordsClient.MAX_PHRASE_LEN
  }

  /** The table after an update that began with `base`: old rows kept, new ones only for missing ids, as the site has them. */
  ghost predicate Updated(
    lang: Words.Language, lastID: int, comics: map<int, Info>, base: Table, table: Table)
  {
    && (forall id :: id in base ==> id in table && table[id] == base[id])
    && (forall id :: id in table && id !in base ==>
          1 <= id <= lastID && Obtainable(comics, id) && RowFor(lang, Said(comics, id), table[id]))
  }

  /** A finished pool over the gap of `base`: every id of it handed out, unless cancelled, and accounted for. */
  ghost predicate WorkedOff(lang: Words.Language, p: Pool, gap: seq<int>, base: Table, table: Table) {
    && Conserved(p) && Finished(p) && p.ids == gap && Tracked(lang, p, base, table)
    && (!p.cancelled ==> p.fates.Keys == ToSet(gap))
  }

  // ----- what the pool's state owes to the answers that came -----

  /** What was asked of the three services from some moment on. */
  datatype Asks = Asks(
    pages: seq<Exchange<Page>>,
    phrases: seq<Exchange<string>>,
    queries: seq<Exchange<Storage.Query>>)

  ghost predicate Grown(before: Asks, after: Asks) {
    before.pages <= after.pages && before.phrases <= after.phrases && before.queries <= after.queries
  }

  /** The site has answered with this comic. */
  ghost predicate Got(comics: map<int, Info>, before: Asks, after: Asks, id: int, info: Info) {
    id in comics && info == Said(comics, id) && Among(before.pages, after.pages, Comic(id), true)
  }

  /** The words service has answered with these words. */
  ghost predicate Normed(before: Asks, after: Asks, info: Info, row: Row) {
    && row == Row(info.id, info.url, row.words)
    && WordsClient.Bytes(Text(info)) <= WordsClient.MAX_PHRASE_LEN
    && Among(before.phrases, after.phrases, Text(info), true)
  }

  ghost predicate WorkerVouched(comics: map<int, Info>, before: Asks, after: Asks, worker: Worker) {
    match worker
    case Norming(id, info) => Got(comics, before, after, id, info)
    case Adding(id, info, row) => Got(comics, before, after, id, info) && Normed(before, after, info, row)
    case _ => true
  }

  /** One of the calls for this comic went unanswered, or its text was too long. */
  ghost predicate LetDown(comics: map<int, Info>, before: Asks, after: Asks, id: int) {
    || Among(before.pages, after.pages, Comic(id), false)
    || (id in comics
        && (!Obtainable(comics, id)
            || Among(before.phrases, after.phrases, Text(Said(comics, id)), false)
            || exists row: Row :: row.id == id && Among(before.queries, after.queries, Storage.Insert(row), false)))
  }

  ghost predicate FateVouched(comics: map<int, Info>, before: Asks, after: Asks, id: int, fate: Fate) {
    match fate
    case Stored(info, row) =>
      && Got(comics, before, after, id, info) && Normed(before, after, info, row)
      && Among(before.queries, after.queries, Storage.Insert(row), true)
    case Skipped => id !in comics && Among(before.pages, after.pages, Comic(id), true)
    case Lost => LetDown(comics, before, after, id)
  }

  /** Everything in the pool is there because of an answer, or the lack of one. */
  ghost predicate Vouched(comics: map<int, Info>, before: Asks, after: Asks, p: Pool) {
    && (forall w :: 0 <= w < |p.workers| ==> WorkerVouched(comics, before, after, p.workers[w]))
    && (forall id :: id in p.fates ==> FateVouched(comics, before, after, id, p.fates[id]))
  }

  /** A worker's step is the one call of its stage, and its outcome is that of the call. */
  ghost predicate Calls(comics: map<int, Info>, table: Table, p: Pool, w: nat, a: Action, before: Asks, after: Asks)
    requires w < |p.workers|
  {
    match p.workers[w]
    case Getting(id) =>
      && (a == GetFailed(w) || a == if id in comics then GetOk(w, Said(comics, id)) else GetNotFound(w))
      && after == before.(pages := before.pages + [Exchange(Comic(id), a != GetFailed(w))])
    case Norming(id, info) =>
      && ((a.NormOk? && a.w == w) || a == WorkerPool.NormFailed(w))
      && exists ok ::
           && after == before.(phrases := before.phrases + [Exchange(Text(info), ok)])
           && (a.NormOk? <==> ok && WordsClient.Bytes(Text(info)) <= WordsClient.MAX_PHRASE_LEN)
    case Adding(id, info, row) =>
      && (a == AddOk(w) || a == AddFailed(w))
      && exists ok ::
           && after == before.(queries := before.queries + [Exchange(Storage.Insert(row), ok)])
           && (a.AddOk? <==> ok && row.id !in table)
    case _ => false
  }

  /** A step of the pool: a worker's call, or one that asks nobody. */
  ghost predicate Moves(comics: map<int, Info>, table: Table, p: Pool, a: Action, before: Asks, after: Asks) {
    if a.Send? || a.Exit? || a.Abort? || a.Close? || a.Cancel? then after == before
    else 0 <= a.w < |p.workers| && Calls(comics, table, p, a.w, a, before, after)
  }

  lemma MoreAsked(comics: map<int, Info>, start: Asks, before: Asks, after: Asks, p: Pool)
    requires Vouched(comics, start, before, p) && Grown(start, before) && Grown(before, after)
    ensures Vouched(comics, start, after, p)
  {
    forall page, ok | Among(start.pages, before.pages, page, ok)
      ensures Among(start.pages, after.pages, page, ok)
    {
      AmongLonger(start.pages, before.pages, after.pages, page, ok);
    }
    forall phrase, ok | Among(start.phrases, before.phrases, phrase, ok)
      ensures Among(start.phrases, after.phrases, phrase, ok)
    {
      AmongLonger(start.phrases, before.phrases, after.phrases, phrase, ok);
    }
    forall query, ok | Among(start.queries, before.queries, query, ok)
      ensures Among(start.queries, after.queries, query, ok)
    {
      AmongLonger(start.queries, before.queries, after.queries, query, ok);
    }
  }

  lemma JustAsked<R>(start: seq<Exchange<R>>, before: seq<Exchange<R>>, request: R, ok: bool)
    requires start <= before
    ensures Among(start, before + [Exchange(request, ok)], request, ok)
  {
    assert (before + [Exchange(request, ok)])[|before|] == Exchange(request, ok);
  }

  lemma MovesGrow(comics: map<int, Info>, table: Table, p: Pool, a: Action, before: Asks, after: Asks)
    requires Moves(comics, table, p, a, before, after)
    ensures Grown(before, after)
  {
  }

  /** What the worker has in hand after a successful call, or the fate of its id, is vouched for by that call. */
  lemma CallVouches(
    lang: Words.Language, comics: map<int, Info>, table: Table, p: Pool, a: Action,
    start: Asks, before: Asks, after: Asks)
    requires Enabled(lang, p, table, a) && InPlace(p, a) && Moves(comics, table, p, a, before, after)
    requires Grown(start, before) && Vouched(comics, start, before, p) && Vouched(comics, start, after, p)
    requires a.AddFailed? || a.AddOk? ==> p.workers[a.w].row.id == p.workers[a.w].id && p.workers[a.w].row.id !in table
    requires !(a.Send? || a.Exit? || a.Abort? || a.Close? || a.Cancel?)
    ensures WorkerVouched(comics, start, after, Next(p, a).workers[a.w])
    ensures var id := p.workers[a.w].id;
            id in Next(p, a).fates && id !in p.fates ==> FateVouched(comics, start, after, id, Next(p, a).fates[id])
  {
    assert WorkerVouched(comics, start, after, p.workers[a.w]);
    match p.workers[a.w]
    case Getting(id) => JustAsked(start.pages, before.pages, Comic(id), a != GetFailed(a.w));
    case Norming(id, info) =>
      JustAsked(start.phrases, before.phrases, Text(info), true);
      JustAsked(start.phrases, before.phrases, Text(info), false);
    case Adding(id, info, row) =>
      JustAsked(start.queries, before.queries, Storage.Insert(row), true);
      JustAsked(start.queries, before.queries, Storage.Insert(row), false);
  }

  /** One worker has something new in hand, or one id has a fate; the rest is as it was. */
  lemma OthersVouched(comics: map<int, Info>, start: Asks, after: Asks, p: Pool, q: Pool, w: nat)
    requires Vouched(comics, start, after, p) && w < |p.workers| == |q.workers|
    requires forall v :: 0 <= v < |p.workers| && v != w ==> q.workers[v] == p.workers[v]
    requires WorkerVouched(comics, start, after, q.workers[w])
    requires q.fates == p.fates
             || (Busy(p.workers[w]) && var id := p.workers[w].id;
                 id in q.fates && q.fates == p.fates[id := q.fates[id]]
                 && FateVouched(comics, start, after, id, q.fates[id]))
    ensures Vouched(comics, start, after, q)
  {
  }

  lemma ControlVouches(
    lang: Words.Language, comics: map<int, Info>, table: Table, p: Pool, a: Action, start: Asks, after: Asks)
    requires Enabled(lang, p, table, a) && InPlace(p, a) && Vouched(comics, start, after, p)
    requires a.Send? || a.Exit? || a.Abort? || a.Close? || a.Cancel?
    ensures Vouched(comics, start, after, Next(p, a))
  {
    if a.Send? || a.Exit? {
      OthersVouched(comics, start, after, p, Next(p, a), a.w);
    }
  }

  lemma MoveVouches(
    lang: Words.Language, comics: map<int, Info>, base: Table, table: Table, p: Pool, a: Action,
    start: Asks, before: Asks, after: Asks)
    requires Conserved(p) && Tracked(lang, p, base, table) && Enabled(lang, p, table, a) && InPlace(p, a)
    requires Moves(comics, table, p, a, before, after) && Grown(start, before) && Vouched(comics, start, before, p)
    ensures Grown(start, after) && Vouched(comics, start, after, Next(p, a))
  {
    MovesGrow(comics, table, p, a, before, after);
    MoreAsked(comics, start, before, after, p);
    if a.Send? || a.Exit? || a.Abort? || a.Close? || a.Cancel? {
      ControlVouches(lang, comics, table, p, a, start, after);
    } else {
      if a.AddFailed? || a.AddOk? {
        NoKeyConflict(lang, p, base, table, a.w);
        assert WorkerTracked(lang, p.workers[a.w]);
      }
      assert Busy(p.workers[a.w]) && p.workers[a.w].id !in p.fates;
      CallVouches(lang, comics, table, p, a, start, before, after);
      OthersVouched(comics, start, after, p, Next(p, a), a.w);
    }
  }

  /** When every call was answered and nothing was cancelled, exactly what the site has of the gap is in the table. */
  lemma AllGoesWell(
    lang: Words.Language, comics: map<int, Info>, gap: seq<int>, base: Table, table: Table, p: Pool,
    before: Asks, after: Asks)
    requires WorkedOff(lang, p, gap, base, table) && !p.cancelled && Vouched(comics, before, after, p)
    requires AllAnswered(before.pages, after.pages) && AllAnswered(before.phrases, after.phrases)
    requires AllAnswered(before.queries, after.queries)
    ensures forall id :: id in table <==> id in base || (id in gap && Obtainable(comics, id))
  {
    TableEffect(lang, p, base, table);
    forall id | id in gap
      ensures id in table <==> Obtainable(comics, id)
    {
      assert id in ToSet(gap);
      assert FateVouched(comics, before, after, id, p.fates[id]);
      assert FateTracked(lang, id, p.fates[id]);
      assert id in table <==> id in StoredRows(p);
    }
  }

  class Service {
    const db: Storage.DB
    const xkcd: XKCD
    const words: WordsClient.Client
    const notifier: Notifier
    const concurrency: nat
    var running: bool

    ghost predicate Valid()
      reads this, db
    {
      concurrency >= 1 && db.Valid()
    }

    /** What has been asked of the three services. */
    ghost function Asked3(): Asks
      reads xkcd, words, db
    {
      Asks(xkcd.exchanges, words.exchanges, db.exchanges)
    }

    constructor (db: Storage.DB, xkcd: XKCD, words: WordsClient.Client, notifier: Notifier, concurrency: nat)
      requires concurrency >= 1 && db.Valid()
      ensures Valid() && !running
      ensures this.db == db && this.xkcd == xkcd && this.words == words
      ensures this.notifier == notifier && this.concurrency == concurrency
    {
      this.db, this.xkcd, this.words := db, xkcd, words;
      this.notifier, this.concurrency, this.running := notifier, concurrency, false;
    }

    method MissingIDs() returns (r: Result<seq<int>>)
      modifies xkcd`exchanges, db`exchanges
      ensures r.Failure? ==> r.error == SourceFailed || r.error == StoreFailed
      ensures Asked(old(xkcd.exchanges), xkcd.exchanges, Latest, r != Failure(SourceFailed))
      ensures if r == Failure(SourceFailed) then db.exchanges == old(db.exchanges)
              else Asked(old(db.exchanges), db.exchanges, Storage.Ids, r.Success?)
      ensures r.Success? ==> r.value == Missing(xkcd.latest, db.table.Keys)
    {
      var last := xkcd.LastID();
      if last.Failure? {
        return Failure(last.error);
      }
      var existingIDs := db.IDs();
      if existingIDs.Failure? {
        return Failure(existingIDs.error);
      }
      ghost var asked := Asked3();
      var existing: set<int> := {};
      for i := 0 to |existingIDs.value|
        invariant Asked3() == asked
        invariant existing == ToSet(existingIDs.value[..i])
      {
        assert existingIDs.value[..i + 1] == existingIDs.value[..i] + [existingIDs.value[i]];
        ToSetAppend(existingIDs.value[..i], existingIDs.value[i]);
        existing := existing + {existingIDs.value[i]};
      }
      assert existingIDs.value[..|existingIDs.value|] == existingIDs.value;
      var missing: seq<int> := [];
      var id := 1;
      while id <= last.value
        invariant Asked3() == asked
        invariant 1 <= id
        invariant id == 1 || id <= last.value + 1
        invariant missing == Missing(id - 1, existing)
      {
        if id !in existing {
          missing := missing + [id];
        }
        id := id + 1;
      }
      assert missing == Missing(last.value, existing);
      return Success(missing);
    }

    /** The calls of processComicAdd, one at a time: what the worker in hand does next. */
    method Work(p: Pool, w: nat) returns (a: Action)
      requires db.Valid() && w < |p.workers| && Busy(p.workers[w])
      requires p.workers[w].Norming? ==> p.workers[w].info.id == p.workers[w].id
      modifies xkcd`exchanges, words`exchanges, db
      ensures db.Valid()
      ensures Enabled(words.lang, p, old(db.table), a) && InPlace(p, a)
      ensures db.table == NextTable(p, old(db.table), a)
      ensures Calls(xkcd.comics, old(db.table), p, w, a, old(Asked3()), Asked3())
    {
      match p.workers[w]
      case Getting(id) =>
        var got := xkcd.Get(id);
        a := if got.Success? then GetOk(w, got.value)
             else if got.error == NotFound then GetNotFound(w)
             else GetFailed(w);
      case Norming(id, info) =>
        var normed := words.Norm(info.title + " " + info.description);
        a := if normed.Success? then NormOk(w, normed.value) else WorkerPool.NormFailed(w);
        assert Asked3().phrases == old(Asked3()).phrases + [Exchange(Text(info), normed != Failure(Error.NormFailed))];
      case Adding(id, info, row) =>
        var added := db.Add(row);
        a := if added.Done? then AddOk(w) else AddFailed(w);
        assert Asked3().queries == old(Asked3()).queries + [Exchange(Storage.Insert(row), added != Failed(StoreFailed))];
    }

    /** One step of the pool, chosen by nobody in particular. */
    method Advance(p: Pool, ghost base: Table) returns (a: Action)
      requires db.Valid() && Conserved(p) && Tracked(words.lang, p, base, db.table)
      requires |p.workers| >= 1 && !Finished(p)
      modifies xkcd`exchanges, words`exchanges, db
      ensures db.Valid()
      ensures Enabled(words.lang, p, old(db.table), a) && InPlace(p, a) && !a.Cancel?
      ensures db.table == NextTable(p, old(db.table), a)
      ensures Moves(xkcd.comics, old(db.table), p, a, old(Asked3()), Asked3())
    {
      assert p.workers[0] == p.workers[0];
      if
      case exists w :: 0 <= w < |p.workers| && Busy(p.workers[w]) =>
        var w: nat :| w < |p.workers| && Busy(p.workers[w]);
        assert WorkerTracked(words.lang, p.workers[w]);
        a := Work(p, w);
      case p.closed && exists w :: 0 <= w < |p.workers| && p.workers[w].Idle? =>
        var w: nat :| w < |p.workers| && p.workers[w].Idle?;
        a := Exit(w);
      case !p.closed && p.next < |p.ids| && exists w :: 0 <= w < |p.workers| && p.workers[w].Idle? =>
        var w: nat :| w < |p.workers| && p.workers[w].Idle?;
        a := Send(w);
      case !p.closed && p.next < |p.ids| && p.cancelled =>
        a := Abort;
      case !p.closed && p.next == |p.ids| =>
        a := Close;
    }

    /** Start the workers, hand out the ids, wait until all workers are gone. */
    method RunWorkers(ctx: Context, ids: seq<int>) returns (p: Pool)
      requires Valid() && Fresh(ids, db.table)
      modifies ctx, xkcd`exchanges, words`exchanges, db
      ensures db.Valid()
      ensures Conserved(p) && Finished(p) && p.ids == ids
      ensures Tracked(words.lang, p, old(db.table), db.table)
      ensures old(ctx.cancelled) || p.cancelled ==> ctx.cancelled
      ensures Grown(old(Asked3()), Asked3()) && Vouched(xkcd.comics, old(Asked3()), Asked3(), p)
    {
      p := Start(ids, concurrency);
      StartConserved(ids, concurrency);
      StartTracked(words.lang, ids, concurrency, db.table);
      while !Finished(p)
        invariant db.Valid() && Conserved(p) && Tracked(words.lang, p, old(db.table), db.table)
        invariant p.ids == ids && |p.workers| == concurrency
        invariant old(ctx.cancelled) || p.cancelled ==> ctx.cancelled
        invariant Grown(old(Asked3()), Asked3()) && Vouched(xkcd.comics, old(Asked3()), Asked3(), p)
        decreases Measure(p)
      {
        ghost var table, before := db.table, Asked3();
        var a := Cancel;
        var done := ctx.Done();
        if p.cancelled || !done {
          a := Advance(p, old(db.table));
        }
        StepConserves(words.lang, p, table, a);
        StepTracks(words.lang, p, old(db.table), table, a);
        StepDecreases(words.lang, p, table, a);
        MoveVouches(words.lang, xkcd.comics, old(db.table), table, p, a, old(Asked3()), before, Asked3());
        p := Next(p, a);
      }
    }

    /** One update, from the compare-and-swap to the deferred release. */
    method Update(ctx: Context) returns (s: Status, ghost p: Pool)
      requires Valid()
      modifies this`running, ctx, xkcd`exchanges, words`exchanges, db, notifier
      ensures Valid() && running == old(running)
      ensures old(running) <==> s == Failed(AlreadyExists)
      ensures old(running) ==> db.table == old(db.table) && Asked3() == old(Asked3())
                               && notifier.attempts == old(notifier.attempts)
      ensures !old(running) ==> Outcome(old(Asked3()), old(db.table), old(notifier.attempts), ctx.cancelled, s, p)
    {
      p := Start([], 0);
      if running {
        return Failed(AlreadyExists), p;
      }
      running := true;
      s, p := UpdateLocked(ctx);
      running := false;
    }

    /**
     How an update that has the flag ends. The two reads come first, and if one goes unanswered nothing else happens.
     An empty gap is a success. Otherwise the pool works the gap off, the context decides between Cancelled, which
     notifies nobody, and nil, which notifies once; and what became of each id is owed to the answers for it. When all
     calls were answered and the context was not cancelled, the table has everything the site has of 1..lastID.
     */
    ghost predicate Outcome(before: Asks, base: Table, attempts: nat, cancelled: bool, s: Status, p: Pool)
      reads this, xkcd, words, db, notifier
    {
      var after := Asked3();
      var gap := Missing(xkcd.latest, base.Keys);
      if Asked(before.pages, after.pages, Latest, false) then
        && s == Failed(SourceFailed)
        && after == before.(pages := after.pages) && db.table == base && notifier.attempts == attempts
      else if Asked(before.queries, after.queries, Storage.Ids, false) then
        && s == Failed(StoreFailed)
        && after.phrases == before.phrases && Asked(before.pages, after.pages, Latest, true)
        && db.table == base && notifier.attempts == attempts
      else
        && s == (if gap != [] && cancelled then Failed(Cancelled) else Done)
        && notifier.attempts == attempts + (if gap != [] && s.Done? then 1 else 0)
        && Begins(before.pages, after.pages, Latest, true) && Begins(before.queries, after.queries, Storage.Ids, true)
        && before.phrases <= after.phrases
        && WorkedOff(words.lang, p, gap, base, db.table) && p.cancelled == s.Failed?
        && Vouched(xkcd.comics, before, after, p)
        && Updated(words.lang, xkcd.latest, xkcd.comics, base, db.table)
        && Missing(xkcd.latest, db.table.Keys) == Without(gap, db.table.Keys - base.Keys)
        && (s.Done? && AllAnswered(before.pages, after.pages) && AllAnswered(before.phrases, after.phrases)
            && AllAnswered(before.queries, after.queries) ==>
              forall id :: id in db.table <==>
                id in base || (1 <= id <= xkcd.latest && Obtainable(xkcd.comics, id)))
    }

    method UpdateLocked(ctx: Context) returns (s: Status, ghost p: Pool)
      requires Valid()
      modifies ctx, xkcd`exchanges, words`exchanges, db, notifier
      ensures Valid() && s != Failed(AlreadyExists)
      ensures Outcome(old(Asked3()), old(db.table), old(notifier.attempts), ctx.cancelled, s, p)
    {
      p := Pool([], 0, true, false, [], map[]);
      ghost var before := Asked3();
      var missing := MissingIDs();
      if missing != Failure(SourceFailed) {
        BegunAnswered(before.pages, xkcd.exchanges, Latest);
      }
      if missing.Failure? {
        return Failed(missing.error), p;
      }
      BegunAnswered(before.queries, db.exchanges, Storage.Ids);
      if |missing.value| == 0 {
        NothingMissing(words.lang, xkcd.latest, xkcd.comics, db.table, before, Asked3(), p);
        return Done, p;
      }
      GapIsFresh(xkcd.latest, db.table);
      ghost var read := Asked3();
      var pool := RunWorkers(ctx, missing.value);
      var done := ctx.Done();
      p := if done then pool.(cancelled := true) else pool;
      BegunAnswered(before.pages, xkcd.exchanges, Latest);
      BegunAnswered(before.queries, db.exchanges, Storage.Ids);
      PoolUpdates(words.lang, xkcd.latest, xkcd.comics, old(db.table), db.table, p, before, read, Asked3());
      if done {
        return Failed(Cancelled), p;
      }
      var notified := notifier.Notify();
      return Done, p;
    }

    method Drop() returns (s: Status)
      requires Valid()
      modifies this`running, db, notifier
      ensures Valid() && running == old(running)
      ensures old(running) <==> s == Failed(AlreadyExists)
      ensures if old(running) then db.exchanges == old(db.exchanges)
              else Asked(old(db.exchanges), db.exchanges, Storage.Truncate, s.Done?)
                   && (s.Failed? ==> s.error == StoreFailed)
      ensures s.Failed? ==> db.table == old(db.table) && notifier.attempts == old(notifier.attempts)
      ensures s.Done? ==> db.table == map[] && notifier.attempts == old(notifier.attempts) + 1
    {
      if running {
        return Failed(AlreadyExists);
      }
      running := true;
      var dropped := db.Drop();
      if dropped.Failed? {
        running := false;
        return dropped;
      }
      var notified := notifier.Notify();
      running := false;
      return Done;
    }

    method Status() returns (status: ServiceStatus)
      ensures status.StatusRunning? <==> running
    {
      if running {
        return StatusRunning;
      }
      return StatusIdle;
    }

    method Stats() returns (r: Result<ServiceStats>)
      requires Valid()
      modifies db`exchanges, xkcd`exchanges
      ensures r.Failure? ==> r.error == StoreFailed || r.error == SourceFailed
      ensures Went(old(db.exchanges), db.exchanges, r != Failure(StoreFailed))
      ensures if r == Failure(StoreFailed) then xkcd.exchanges == old(xkcd.exchanges)
              else Asked(old(xkcd.exchanges), xkcd.exchanges, Latest, r.Success?)
      ensures r.Success? ==> forall rows :: IsListing(rows, db.table) ==> r.value.db == CountersOf(rows)
      ensures r.Success? ==> r.value.db.comicsFetched == |db.table| && r.value.comicsTotal == xkcd.latest
    {
      var dbStats := db.Stats();
      if dbStats.Failure? {
        return Failure(dbStats.error);
      }
      var lastID := xkcd.LastID();
      if lastID.Failure? {
        return Failure(lastID.error);
      }
      return Success(ServiceStats(dbStats.value, lastID.value));
    }
  }

  /** core.NewService: a pool without workers is refused. */
  method NewService(db: Storage.DB, xkcd: XKCD, words: WordsClient.Client, notifier: Notifier, concurrency: int)
    returns (r: Result<Service>)
    requires db.Valid()
    ensures concurrency < 1 ==> r == Failure(WrongConcurrency)
    ensures concurrency >= 1 ==> r.Success? && r.value.Valid() && !r.value.running && fresh(r.value)
                                 && r.value.concurrency == concurrency && r.value.db == db
                                 && r.value.xkcd == xkcd && r.value.words == words && r.value.notifier == notifier
  {
    if concurrency < 1 {
      return Failure(WrongConcurrency);
    }
    var service := new Service(db, xkcd, words, notifier, concurrency);
    return Success(service);
  }

  lemma {:induction false} WithoutNone(s: seq<int>)
    ensures Without(s, {}) == s
  {
    if s != [] {
      WithoutNone(s[..|s| - 1]);
    }
  }

  lemma NothingMissing(
    lang: Words.Language, lastID: int, comics: map<int, Info>, table: Table, before: Asks, after: Asks, p: Pool)
    requires Missing(lastID, table.Keys) == [] && p == Pool([], 0, true, false, [], map[])
    ensures WorkedOff(lang, p, [], table, table) && Vouched(comics, before, after, p)
    ensures Updated(lang, lastID, comics, table, table)
    ensures Missing(lastID, table.Keys) == Without(Missing(lastID, table.Keys), table.Keys - table.Keys)
    ensures forall id :: id in table <==> id in table || (1 <= id <= lastID && Obtainable(comics, id))
  {
    assert StoredRows(p) == map[];
    assert table.Keys - table.Keys == {};
    WithoutNone(Missing(lastID, table.Keys));
    MissingExact(lastID, table.Keys);
    forall id | 1 <= id <= lastID
      ensures id in table
    {
      assert id !in table.Keys ==> id in Missing(lastID, table.Keys);
    }
  }

  /** What a finished pool, whose context may be done by now, means for the update. */
  lemma PoolUpdates(
    lang: Words.Language, lastID: int, comics: map<int, Info>, base: Table, table: Table, p: Pool,
    before: Asks, read: Asks, after: Asks)
    requires Conserved(p) && Finished(p) && Tracked(lang, p, base, table) && p.ids == Missing(lastID, base.Keys)
    requires Grown(before, read) && Grown(read, after) && Vouched(comics, read, after, p.(cancelled := false))
    ensures WorkedOff(lang, p, Missing(lastID, base.Keys), base, table)
    ensures Vouched(comics, before, after, p)
    ensures Updated(lang, lastID, comics, base, table)
    ensures Missing(lastID, table.Keys) == Without(Missing(lastID, base.Keys), table.Keys - base.Keys)
    ensures !p.cancelled && AllAnswered(before.pages, after.pages) && AllAnswered(before.phrases, after.phrases)
            && AllAnswered(before.queries, after.queries) ==>
              forall id :: id in table <==> id in base || (1 <= id <= lastID && Obtainable(comics, id))
  {
    ConservationMeans(p);
    EarlierStart(comics, before, read, after, p);
    PoolStores(lang, lastID, comics, base, table, p, before, after);
    if !p.cancelled && AllAnswered(before.pages, after.pages) && AllAnswered(before.phrases, after.phrases)
       && AllAnswered(before.queries, after.queries) {
      AllGoesWell(lang, comics, Missing(lastID, base.Keys), base, table, p, before, after);
      MissingExact(lastID, base.Keys);
    }
  }

  lemma PoolStores(
    lang: Words.Language, lastID: int, comics: map<int, Info>, base: Table, table: Table, p: Pool,
    before: Asks, after: Asks)
    requires Conserved(p) && Tracked(lang, p, base, table) && p.ids == Missing(lastID, base.Keys)
    requires Vouched(comics, before, after, p)
    ensures Updated(lang, lastID, comics, base, table)
    ensures Missing(lastID, table.Keys) == Without(Missing(lastID, base.Keys), table.Keys - base.Keys)
  {
    TableEffect(lang, p, base, table);
    MissingExact(lastID, base.Keys);
    MissingAfterStoring(lastID, base.Keys, table.Keys - base.Keys);
    assert base.Keys + (table.Keys - base.Keys) == table.Keys;
    forall id | id in table && id !in base
      ensures Obtainable(comics, id) && RowFor(lang, Said(comics, id), table[id])
    {
      assert FateVouched(comics, before, after, id, p.fates[id]);
      assert FateTracked(lang, id, p.fates[id]);
    }
  }

  lemma EarlierStart(comics: map<int, Info>, before: Asks, read: Asks, after: Asks, p: Pool)
    requires Grown(before, read) && Grown(read, after) && Vouched(comics, read, after, p.(cancelled := false))
    ensures Vouched(comics, before, after, p)
  {
    var q := p.(cancelled := false);
    forall w | 0 <= w < |p.workers|
      ensures WorkerVouched(comics, before, after, p.workers[w])
    {
      assert WorkerVouched(comics, read, after, q.workers[w]);
    }
    forall id | id in p.fates
      ensures FateVouched(comics, before, after, id, p.fates[id])
    {
      assert FateVouched(comics, read, after, id, q.fates[id]);
    }
  }
}
