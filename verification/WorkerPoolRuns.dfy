/** Whole runs of the worker pool: they end, they can only end properly, and what they leave behind. */
module WorkerPoolRuns {
  import opened Lists
  import opened ComicsTable
  import opened MissingIds
  import opened Words
  import opened WorkerPool

  // ----- termination -----

  /** How many steps a worker may still take with what it has in hand. */
  function Weight(worker: Worker): nat {
    match worker
    case Exited => 0
    case Idle => 1
    case Adding(_, _, _) => 2
    case Norming(_, _) => 3
    case Getting(_) => 4
  }

  function Weights(workers: seq<Worker>): nat {
    if workers == [] then 0 else Weights(workers[..|workers| - 1]) + Weight(workers[|workers| - 1])
  }

  function Measure(p: Pool): nat
    requires p.next <= |p.ids|
  {
    5 * (|p.ids| - p.next) + Weights(p.workers) + (if p.closed then 0 else 1) + (if p.cancelled then 0 else 1)
  }

  lemma {:induction false} WeightsUpdate(workers: seq<Worker>, w: nat, worker: Worker)
    requires w < |workers|
    ensures Weights(workers[w := worker]) == Weights(workers) - Weight(workers[w]) + Weight(worker)
  {
    var last := |workers| - 1;
    var updated := workers[w := worker];
    if w == last {
      assert updated[..last] == workers[..last];
    } else {
      assert updated[..last] == workers[..last][w := worker];
      WeightsUpdate(workers[..last], w, worker);
    }
  }

  lemma {:induction false} WeightsIdle(concurrency: nat, workers: seq<Worker>)
    requires workers == seq(concurrency, i => Idle)
    ensures Weights(workers) == concurrency
  {
    if concurrency > 0 {
      WeightsIdle(concurrency - 1, workers[..concurrency - 1]);
    }
  }

  lemma ReplaceDecreases(p: Pool, q: Pool, w: nat, worker: Worker)
    requires p.next <= |p.ids| && w < |p.workers| && q.workers == p.workers[w := worker]
    requires q.ids == p.ids && q.next == p.next && q.closed == p.closed && q.cancelled == p.cancelled
    requires Weight(worker) < Weight(p.workers[w])
    ensures Measure(q) < Measure(p)
  {
    WeightsUpdate(p.workers, w, worker);
  }

  /** Every step, the environment's included, uses up some of the measure. */
  lemma StepDecreases(lang: Language, p: Pool, table: Table, a: Action)
    requires Conserved(p) && Enabled(lang, p, table, a)
    ensures InPlace(p, a) && Next(p, a).next <= |p.ids| && Next(p, a).ids == p.ids
    ensures Measure(Next(p, a)) < Measure(p)
  {
    if a.Send? {
      WeightsUpdate(p.workers, a.w, Getting(p.ids[p.next]));
    } else if !a.Abort? && !a.Close? && !a.Cancel? {
      ReplaceDecreases(p, Next(p, a), a.w, Next(p, a).workers[a.w]);
    }
  }

  /** Nothing but a cancellation from outside can happen. */
  ghost predicate Stuck(lang: Language, p: Pool, table: Table) {
    forall a :: Enabled(lang, p, table, a) ==> a.Cancel?
  }

  /** With at least one worker the pool is never stuck before it is through, cancelled or not. */
  lemma Progress(lang: Language, p: Pool, table: Table)
    requires Conserved(p) && |p.workers| >= 1 && !Finished(p)
    ensures !Stuck(lang, p, table)
  {
    if w :| 0 <= w < |p.workers| && Busy(p.workers[w]) {
      assert Enabled(lang, p, table, GetFailed(w))
          || Enabled(lang, p, table, NormFailed(w))
          || Enabled(lang, p, table, AddFailed(w));
    } else if p.closed {
      var w :| 0 <= w < |p.workers| && !p.workers[w].Exited?;
      assert Enabled(lang, p, table, Exit(w));
    } else if p.next < |p.ids| {
      assert p.workers[0].Idle?;
      assert Enabled(lang, p, table, Send(0));
    } else {
      assert Enabled(lang, p, table, Close);
    }
  }

  /** A freshly started pool can get on exactly when it has a worker, or nothing to hand out. */
  lemma StartNeedsAWorker(lang: Language, ids: seq<int>, concurrency: nat, table: Table)
    ensures Stuck(lang, Start(ids, concurrency), table) <==> concurrency == 0 && ids != []
  {
    var p := Start(ids, concurrency);
    if ids == [] {
      assert Enabled(lang, p, table, Close);
    } else if concurrency > 0 {
      assert Enabled(lang, p, table, Send(0));
    }
  }

  // ----- runs -----

  datatype State = State(pool: Pool, table: Table)

  ghost predicate Step(lang: Language, s: State, a: Action, t: State) {
    && Enabled(lang, s.pool, s.table, a)
    && InPlace(s.pool, a)
    && t == State(Next(s.pool, a), NextTable(s.pool, s.table, a))
  }

  /** A run of the pool over these ids, started on the table `base`. */
  ghost predicate IsRun(
    lang: Language, ids: seq<int>, concurrency: nat, base: Table, states: seq<State>, actions: seq<Action>)
  {
    && |states| == |actions| + 1
    && states[0] == State(Start(ids, concurrency), base)
    && forall i :: 0 <= i < |actions| ==> Step(lang, states[i], actions[i], states[i + 1])
  }

  /** The ids may be given to the pool: none twice, none already stored. */
  ghost predicate Fresh(ids: seq<int>, base: Table) {
    NoDup(ids) && forall id :: id in ids ==> id !in base
  }

  /** Both invariants hold in every state of every run, and each step so far cost at least one unit. */
  lemma {:induction false} RunKeeps(
    lang: Language, ids: seq<int>, concurrency: nat, base: Table, states: seq<State>, actions: seq<Action>, k: nat)
    requires Fresh(ids, base) && IsRun(lang, ids, concurrency, base, states, actions) && k <= |actions|
    ensures Conserved(states[k].pool) && Tracked(lang, states[k].pool, base, states[k].table)
    ensures states[k].pool.ids == ids && |states[k].pool.workers| == concurrency
    ensures k + Measure(states[k].pool) <= 5 * |ids| + concurrency + 2
  {
    if k == 0 {
      StartConserved(ids, concurrency);
      StartTracked(lang, ids, concurrency, base);
      WeightsIdle(concurrency, seq(concurrency, i => Idle));
    } else {
      RunKeeps(lang, ids, concurrency, base, states, actions, k - 1);
      StepKeeps(lang, base, states[k - 1], actions[k - 1], states[k - 1 + 1]);
    }
  }

  lemma StepKeeps(lang: Language, base: Table, s: State, a: Action, t: State)
    requires Conserved(s.pool) && Tracked(lang, s.pool, base, s.table) && Step(lang, s, a, t)
    ensures Conserved(t.pool) && Tracked(lang, t.pool, base, t.table)
    ensures t.pool.ids == s.pool.ids && |t.pool.workers| == |s.pool.workers|
    ensures Measure(t.pool) < Measure(s.pool)
  {
    StepConserves(lang, s.pool, s.table, a);
    StepTracks(lang, s.pool, base, s.table, a);
    StepDecreases(lang, s.pool, s.table, a);
  }

  /**
   runWorkers always returns: no run is longer than five steps an id, one a worker, and two, and a run that
   cannot go on by itself is finished.
   */
  lemma RunsEnd(
    lang: Language, ids: seq<int>, concurrency: nat, base: Table, states: seq<State>, actions: seq<Action>)
    requires concurrency >= 1
    requires Fresh(ids, base) && IsRun(lang, ids, concurrency, base, states, actions)
    ensures |actions| <= 5 * |ids| + concurrency + 2
    ensures var last := states[|actions|];
            Stuck(lang, last.pool, last.table) ==> Finished(last.pool)
  {
    var last := states[|actions|];
    RunKeeps(lang, ids, concurrency, base, states, actions, |actions|);
    if !Finished(last.pool) {
      Progress(lang, last.pool, last.table);
    }
  }

  /**
   In every state of every run: what was handed out is in flight with one worker each or finished, never both;
   old rows are untouched and the new ones are those of the ids whose three calls all succeeded.
   */
  lemma RunAccounts(
    lang: Language, ids: seq<int>, concurrency: nat, base: Table, states: seq<State>, actions: seq<Action>, k: nat)
    requires Fresh(ids, base) && IsRun(lang, ids, concurrency, base, states, actions) && k <= |actions|
    ensures var p, table := states[k].pool, states[k].table;
            && p.next <= |ids|
            && ToSet(ids[..p.next]) == InFlight(p) + p.fates.Keys
            && InFlight(p) !! p.fates.Keys
            && |InFlight(p)| <= concurrency
            && (forall id :: id in base ==> id in table && table[id] == base[id])
            && table == base + StoredRows(p)
            && table.Keys == base.Keys + StoredRows(p).Keys
            && base.Keys !! StoredRows(p).Keys
  {
    RunKeeps(lang, ids, concurrency, base, states, actions, k);
    ConservationMeans(states[k].pool);
    TableEffect(lang, states[k].pool, base, states[k].table);
  }

  /**
   What an update leaves behind. When its pool is through, the processed ids are a prefix of the missing ones,
   all of them if it was not cancelled, and asking again with the same last id yields exactly the missing ids
   that were not stored, in the same order.
   */
  lemma UpdateEffect(
    lang: Language, lastID: int, concurrency: nat, base: Table, states: seq<State>, actions: seq<Action>)
    requires IsRun(lang, Missing(lastID, base.Keys), concurrency, base, states, actions)
    requires Finished(states[|actions|].pool)
    ensures var ids := Missing(lastID, base.Keys);
            var p, table := states[|actions|].pool, states[|actions|].table;
            && p.next <= |ids|
            && p.fates.Keys == ToSet(ids[..p.next])
            && (!p.cancelled ==> p.fates.Keys == ToSet(ids))
            && table == base + StoredRows(p)
            && Missing(lastID, table.Keys) == Without(ids, StoredRows(p).Keys)
            && (forall id :: id in Missing(lastID, table.Keys) && !p.cancelled ==>
                  id in p.fates && (p.fates[id].Skipped? || p.fates[id].Lost?))
  {
    var ids := Missing(lastID, base.Keys);
    var p, table := states[|actions|].pool, states[|actions|].table;
    GapIsFresh(lastID, base);
    RunKeeps(lang, ids, concurrency, base, states, actions, |actions|);
    RunAccounts(lang, ids, concurrency, base, states, actions, |actions|);
    ConservationMeans(p);
    MissingAfterStoring(lastID, base.Keys, StoredRows(p).Keys);
    MissingExact(lastID, base.Keys);
    MissingExact(lastID, table.Keys);
    forall id | id in Missing(lastID, table.Keys) && !p.cancelled
      ensures id in p.fates && (p.fates[id].Skipped? || p.fates[id].Lost?)
    {
      assert id in ToSet(ids);
      assert id !in StoredRows(p);
    }
  }

  lemma GapIsFresh(lastID: int, base: Table)
    ensures Fresh(Missing(lastID, base.Keys), base)
  {
    MissingExact(lastID, base.Keys);
    IncreasingNoDup(Missing(lastID, base.Keys));
  }

  // ----- why each id fared as it did -----

  /** In step `j` worker `w`, at work on `id`, took action `a`. */
  ghost predicate Did(states: seq<State>, actions: seq<Action>, j: nat, w: nat, id: int, a: Action) {
    && j < |actions| && j < |states| && w < |states[j].pool.workers|
    && Busy(states[j].pool.workers[w]) && states[j].pool.workers[w].id == id && actions[j] == a
  }

  /** The site answered for `id` with `info`, within the first `k` steps. */
  ghost predicate Fetched(states: seq<State>, actions: seq<Action>, k: nat, id: int, info: Info) {
    exists j: nat, w: nat :: j < k && Did(states, actions, j, w, id, GetOk(w, info))
  }

  /** The words service answered for `id` with `words`. */
  ghost predicate Worded(states: seq<State>, actions: seq<Action>, k: nat, id: int, words: seq<string>) {
    exists j: nat, w: nat :: j < k && Did(states, actions, j, w, id, NormOk(w, words))
  }

  /** The step ends the work on `id` with this fate. */
  ghost predicate Ends(p: Pool, a: Action, id: int, fate: Fate) {
    match a
    case GetNotFound(w) => w < |p.workers| && p.workers[w] == Getting(id) && fate == Skipped
    case GetFailed(w) => w < |p.workers| && p.workers[w] == Getting(id) && fate == Lost
    case NormFailed(w) => w < |p.workers| && p.workers[w].Norming? && p.workers[w].id == id && fate == Lost
    case AddFailed(w) => w < |p.workers| && p.workers[w].Adding? && p.workers[w].id == id && fate == Lost
    case AddOk(w) =>
      w < |p.workers| && p.workers[w].Adding? && p.workers[w].id == id
      && fate == Stored(p.workers[w].info, p.workers[w].row)
    case _ => false
  }

  ghost predicate EndedBy(states: seq<State>, actions: seq<Action>, k: nat, id: int, fate: Fate) {
    exists j: nat :: j < k && j < |actions| && j < |states| && Ends(states[j].pool, actions[j], id, fate)
  }

  /** The row is made of what the two services answered. */
  ghost predicate Made(states: seq<State>, actions: seq<Action>, k: nat, id: int, info: Info, row: Row) {
    && Fetched(states, actions, k, id, info) && Worded(states, actions, k, id, row.words)
    && row.id == info.id && row.url == info.url
  }

  ghost predicate WorkerExplained(states: seq<State>, actions: seq<Action>, k: nat, worker: Worker) {
    match worker
    case Norming(id, info) => Fetched(states, actions, k, id, info)
    case Adding(id, info, row) => Made(states, actions, k, id, info, row)
    case _ => true
  }

  ghost predicate FateExplained(
    states: seq<State>, actions: seq<Action>, k: nat, fates: map<int, Fate>, id: int, fate: Fate)
  {
    && (id in fates && fates[id] == fate <==> EndedBy(states, actions, k, id, fate))
    && (id in fates && fates[id] == fate && fate.Stored? ==> Made(states, actions, k, id, fate.info, fate.row))
  }

  /** Everything in the pool, and what is gone from it, is there because of a step. */
  ghost predicate Explained(states: seq<State>, actions: seq<Action>, k: nat)
    requires k < |states|
  {
    var p := states[k].pool;
    && (p.cancelled <==> exists j :: 0 <= j < k && j < |actions| && actions[j].Cancel?)
    && (forall w :: 0 <= w < |p.workers| ==> WorkerExplained(states, actions, k, p.workers[w]))
    && (forall id, fate :: FateExplained(states, actions, k, p.fates, id, fate))
  }

  /** One step more: nothing that happened is undone, and only the worker that moved has something new. */
  lemma StepExplains(lang: Language, states: seq<State>, actions: seq<Action>, k: nat)
    requires k < |actions| && |states| == |actions| + 1
    requires Step(lang, states[k], actions[k], states[k + 1]) && Conserved(states[k].pool)
    requires Explained(states, actions, k)
    ensures Explained(states, actions, k + 1)
  {
    var q, n := states[k + 1].pool, k + 1;
    forall w | 0 <= w < |q.workers|
      ensures WorkerExplained(states, actions, n, q.workers[w])
    {
      WorkerStepExplains(lang, states, actions, k, w);
    }
    forall id, fate
      ensures FateExplained(states, actions, n, q.fates, id, fate)
    {
      FateStepExplains(lang, states, actions, k, id, fate);
    }
  }

  lemma WorkerStepExplains(lang: Language, states: seq<State>, actions: seq<Action>, k: nat, w: nat)
    requires k < |actions| && |states| == |actions| + 1
    requires Step(lang, states[k], actions[k], states[k + 1]) && Explained(states, actions, k)
    requires w < |states[k + 1].pool.workers|
    ensures WorkerExplained(states, actions, k + 1, states[k + 1].pool.workers[w])
  {
    var p, q, a := states[k].pool, states[k + 1].pool, actions[k];
    assert WorkerExplained(states, actions, k, p.workers[w]);
    if q.workers[w] != p.workers[w] {
      if a.GetOk? {
        assert Did(states, actions, k, w, p.workers[w].id, GetOk(w, a.info));
      } else if a.NormOk? {
        assert Did(states, actions, k, w, p.workers[w].id, NormOk(w, a.words));
      }
    }
  }

  lemma EndsDecide(lang: Language, p: Pool, table: Table, a: Action, id: int, fate: Fate)
    requires Conserved(p) && Enabled(lang, p, table, a) && InPlace(p, a)
    ensures var q := Next(p, a);
            id in q.fates && q.fates[id] == fate <==> (id in p.fates && p.fates[id] == fate) || Ends(p, a, id, fate)
  {
    assert a.GetNotFound? || a.GetFailed? || a.NormFailed? || a.AddOk? || a.AddFailed? ==>
             p.workers[a.w].id !in p.fates;
  }

  lemma FateStepExplains(lang: Language, states: seq<State>, actions: seq<Action>, k: nat, id: int, fate: Fate)
    requires k < |actions| && |states| == |actions| + 1
    requires Step(lang, states[k], actions[k], states[k + 1]) && Conserved(states[k].pool)
    requires Explained(states, actions, k)
    ensures FateExplained(states, actions, k + 1, states[k + 1].pool.fates, id, fate)
  {
    var p, a := states[k].pool, actions[k];
    assert FateExplained(states, actions, k, p.fates, id, fate);
    EndsDecide(lang, p, states[k].table, a, id, fate);
    EndedByNext(states, actions, k, id, fate);
    if Ends(p, a, id, fate) && fate.Stored? {
      assert WorkerExplained(states, actions, k, p.workers[a.w]);
      MadeStays(states, actions, k, id, fate.info, fate.row);
    } else if id in p.fates && p.fates[id] == fate && fate.Stored? {
      MadeStays(states, actions, k, id, fate.info, fate.row);
    }
  }

  lemma EndedByNext(states: seq<State>, actions: seq<Action>, k: nat, id: int, fate: Fate)
    requires k < |actions| && |states| == |actions| + 1
    ensures EndedBy(states, actions, k + 1, id, fate)
            <==> EndedBy(states, actions, k, id, fate) || Ends(states[k].pool, actions[k], id, fate)
  {
  }

  lemma MadeStays(states: seq<State>, actions: seq<Action>, k: nat, id: int, info: Info, row: Row)
    requires Made(states, actions, k, id, info, row)
    ensures Made(states, actions, k + 1, id, info, row)
  {
  }

  lemma StartExplained(states: seq<State>, actions: seq<Action>, ids: seq<int>, concurrency: nat)
    requires states != [] && states[0].pool == Start(ids, concurrency)
    ensures Explained(states, actions, 0)
  {
  }

  lemma RunStepExplains(
    lang: Language, ids: seq<int>, concurrency: nat, base: Table, states: seq<State>, actions: seq<Action>, k: nat)
    requires Fresh(ids, base) && IsRun(lang, ids, concurrency, base, states, actions) && k < |actions|
    requires Explained(states, actions, k)
    ensures Explained(states, actions, k + 1)
  {
    RunKeeps(lang, ids, concurrency, base, states, actions, k);
    StepExplains(lang, states, actions, k);
  }

  lemma {:induction false} ExplainedOn(states: seq<State>, actions: seq<Action>, k: nat)
    requires k < |states| && Explained(states, actions, 0)
    requires forall j: nat :: j < k && Explained(states, actions, j) ==> Explained(states, actions, j + 1)
    ensures Explained(states, actions, k)
  {
    if k > 0 {
      ExplainedOn(states, actions, k - 1);
      assert Explained(states, actions, k - 1 + 1);
    }
  }

  /**
   Why each id fared as it did, in every state of every run: it has a fate iff some step ended the work on it so, and
   a stored row is made of what the site and the words service answered for it. The pool is cancelled iff its context
   was.
   */
  lemma RunExplains(
    lang: Language, ids: seq<int>, concurrency: nat, base: Table, states: seq<State>, actions: seq<Action>, k: nat)
    requires Fresh(ids, base) && IsRun(lang, ids, concurrency, base, states, actions) && k <= |actions|
    ensures Explained(states, actions, k)
  {
    StartExplained(states, actions, ids, concurrency);
    forall j: nat | j < k && Explained(states, actions, j)
      ensures Explained(states, actions, j + 1)
    {
      RunStepExplains(lang, ids, concurrency, base, states, actions, j);
    }
    ExplainedOn(states, actions, k);
  }
}
