/** What a cancelled update leaves behind: a table the index does not know of, and a run that shows it. */
module Cancellation {
  import opened Lists
  import opened ComicsTable
  import opened InvertedIndex
  import opened Words
  import opened Jobs
  import JobRuns
  import Pools = WorkerPool
  import MissingIds
  import Search = Propagation
  import SearchRuns = PropagationRuns
  import Staleness
  import EndToEnd

  // ----- jobs that tell nobody, next to a search side that stands still -----

  /** No notification gets through. */
  ghost predicate Untold(actions: seq<Action>) {
    forall j :: 0 <= j < |actions| ==> !(actions[j].Notify? && actions[j].ok)
  }

  /** The search side before its first build, on the table as the jobs have it. */
  function StandingStill(table: Table, readers: nat, s: State): EndToEnd.World {
    EndToEnd.World(s, Search.Initial(table, readers).(history := s.history))
  }

  lemma StillStep(lang: Language, concurrency: nat, table: Table, readers: nat, s: State, a: Action)
    requires Enabled(lang, s, a) && !(a.Notify? && a.ok)
    requires var t := Next(lang, s, a, concurrency); t.history != [] && WellFormed(Current(t))
    ensures EndToEnd.Step(lang, concurrency, StandingStill(table, readers, s), EndToEnd.JobStep(a),
                          StandingStill(table, readers, Next(lang, s, a, concurrency)))
  {
    EndToEnd.HistoryGrowsByOne(lang, s, a, concurrency);
  }

  /**
   Whatever the jobs do, as long as no notification gets through the search side can stand still beside them. Its
   index then is that of the empty table, which is the right one exactly when the jobs have left the table empty.
   */
  lemma UntoldJobsLeaveStale(
    lang: Language, callers: nat, latest: int, table: Table, concurrency: nat, readers: nat,
    states: seq<State>, actions: seq<Action>) returns (worlds: seq<EndToEnd.World>, steps: seq<EndToEnd.Action>)
    requires JobRuns.IsService(lang, callers, latest, table, concurrency, states, actions) && Untold(actions)
    ensures EndToEnd.IsRun(lang, callers, latest, table, concurrency, readers, worlds, steps)
    ensures |steps| == |actions| && forall j :: 0 <= j < |steps| ==> steps[j] == EndToEnd.JobStep(actions[j])
    ensures var w := worlds[|steps|];
            && w.jobs == states[|actions|] && w.jobs.history != []
            && SearchRuns.Undisturbed(w.search) && !w.search.past.lastFailed
            && Represents(w.search.index, w.search.comics, map[])
            && (Represents(w.search.index, w.search.comics, Current(w.jobs)) <==> Current(w.jobs) == map[])
  {
    worlds := seq(|states|, j requires 0 <= j < |states| => StandingStill(table, readers, states[j]));
    steps := seq(|actions|, j requires 0 <= j < |actions| => EndToEnd.JobStep(actions[j]));
    forall j | 0 <= j < |steps|
      ensures EndToEnd.Step(lang, concurrency, worlds[j], steps[j], worlds[j + 1])
    {
      JobRuns.RunInvariant(lang, callers, latest, table, concurrency, states, actions, j + 1);
      assert Enabled(lang, states[j], actions[j]);
      StillStep(lang, concurrency, table, readers, states[j], actions[j]);
    }
    JobRuns.RunInvariant(lang, callers, latest, table, concurrency, states, actions, |actions|);
    EmptyIndex(Current(states[|actions|]));
  }

  lemma EmptyIndex(table: Table)
    ensures Represents(map[], map[], map[])
    ensures Represents(map[], map[], table) <==> table == map[]
  {
    Staleness.RepresentsAnother(map[], map[], map[], table);
    assert Staleness.SameToSearch(map[], table) ==> table.Keys == {};
  }

  // ----- an update that stores a comic and is cancelled -----

  /** The update is at its worker pool. */
  function AtPool(p: Pools.Pool): State {
    State(true, 1, [Pooling(1, map[], p)], [map[]], [Acquired(0, UpdateJob), Planned(0, [1])])
  }

  function AtPoolWith(p: Pools.Pool, row: Row): State {
    State(true, 1, [Pooling(1, map[], p)], [map[], map[1 := row]],
          [Acquired(0, UpdateJob), Planned(0, [1]), Wrote(0, 1)])
  }

  lemma Go(lang: Language, states: seq<State>, actions: seq<Action>, a: Action, t: State)
    returns (longer: seq<State>, more: seq<Action>)
    requires IsRun(lang, 1, states, actions) && Untold(actions) && !(a.Notify? && a.ok)
    requires Enabled(lang, states[|actions|], a) && t == Next(lang, states[|actions|], a, 1)
    ensures IsRun(lang, 1, longer, more) && Untold(more)
    ensures longer[0] == states[0] && longer[|more|] == t
  {
    RunGoesOn(lang, 1, states, actions, a);
    longer, more := states + [t], actions + [a];
  }

  /** One caller asks for an update, and finds comic 1 missing. */
  lemma ToThePool(lang: Language) returns (states: seq<State>, actions: seq<Action>)
    ensures IsRun(lang, 1, states, actions) && Untold(actions)
    ensures states[0] == Initial(1, 1, map[]) && states[|actions|] == AtPool(PoolAt(0, Pools.Idle))
  {
    var s := State(false, 1, [Away], [map[]], []);
    assert s == Initial(1, 1, map[]);
    states, actions := [s], [];
    states, actions := Go(lang, states, actions, Call(0, UpdateJob), s.(callers := [Asking(UpdateJob)]));
    s := State(true, 1, [ReadingLastID], [map[]], [Acquired(0, UpdateJob)]);
    states, actions := Go(lang, states, actions, Swap(0), s);
    states, actions := Go(lang, states, actions, LastID(0, true), s.(callers := [ReadingIDs(1)]));
    assert MissingIds.Missing(0, {}) == [];
    assert MissingIds.Missing(1, {}) == [1];
    assert Pools.Start([1], 1).workers == [Pools.Idle];
    states, actions := Go(lang, states, actions, IDs(0, true), AtPool(PoolAt(0, Pools.Idle)));
  }

  /** A pool step that stores nothing leads to pool `q`. */
  lemma PoolGoes(
    lang: Language, states: seq<State>, actions: seq<Action>, p: Pools.Pool, b: Pools.Action, q: Pools.Pool)
    returns (longer: seq<State>, more: seq<Action>)
    requires IsRun(lang, 1, states, actions) && Untold(actions) && !b.AddOk?
    requires states[|actions|].callers == [Pooling(1, map[], p)] && states[|actions|].history != []
    requires Pools.Enabled(lang, p, Current(states[|actions|]), b) && Pools.InPlace(p, b)
    requires Pools.Next(p, b).workers == q.workers && Pools.Next(p, b) == q.(workers := Pools.Next(p, b).workers)
    ensures IsRun(lang, 1, longer, more) && Untold(more) && longer[0] == states[0]
    ensures longer[|more|] == states[|actions|].(callers := [Pooling(1, map[], q)])
  {
    var s := states[|actions|];
    longer, more := Go(lang, states, actions, PoolStep(0, b), s.(callers := [Pooling(1, map[], q)]));
  }

  /** The pool of one worker at work on comic 1. */
  function PoolAt(next: nat, worker: Pools.Worker): Pools.Pool {
    Pools.Pool([1], next, false, false, [worker], map[])
  }

  /** The pool of one worker after storing the comic. */
  function StoredPool(info: Pools.Info, row: Row, cancelled: bool, closed: bool, worker: Pools.Worker): Pools.Pool {
    Pools.Pool([1], 1, closed, cancelled, [worker], map[1 := Pools.Stored(info, row)])
  }

  /** The worker fetches, normalises and stores the comic. */
  lemma ToTheRow(lang: Language, info: Pools.Info, words: seq<string>)
    returns (states: seq<State>, actions: seq<Action>)
    requires info.id == 1 && Pools.RowFor(lang, info, Row(1, info.url, words))
    ensures IsRun(lang, 1, states, actions) && Untold(actions) && states[0] == Initial(1, 1, map[])
    ensures var row := Row(1, info.url, words);
            states[|actions|] == AtPoolWith(StoredPool(info, row, false, false, Pools.Idle), row)
  {
    states, actions := ToThePool(lang);
    var row := Row(1, info.url, words);
    var getting, norming, adding := Pools.Getting(1), Pools.Norming(1, info), Pools.Adding(1, info, row);
    states, actions := PoolGoes(lang, states, actions, PoolAt(0, Pools.Idle), Pools.Send(0), PoolAt(1, getting));
    states, actions := PoolGoes(lang, states, actions, PoolAt(1, getting), Pools.GetOk(0, info), PoolAt(1, norming));
    states, actions := PoolGoes(lang, states, actions, PoolAt(1, norming), Pools.NormOk(0, words), PoolAt(1, adding));
    var stored := StoredPool(info, row, false, false, Pools.Idle);
    assert Pools.Next(PoolAt(1, adding), Pools.AddOk(0)) == stored;
    states, actions := Go(lang, states, actions, PoolStep(0, Pools.AddOk(0)), AtPoolWith(stored, row));
  }

  /** Then the context is cancelled: the pool winds up, and the update returns without notifying. */
  lemma CancelledJob(lang: Language, info: Pools.Info, words: seq<string>)
    returns (states: seq<State>, actions: seq<Action>)
    requires info.id == 1 && Pools.RowFor(lang, info, Row(1, info.url, words))
    ensures JobRuns.IsService(lang, 1, 1, map[], 1, states, actions) && Untold(actions)
    ensures states[|actions|].callers == [Returned(Cancelled)]
    ensures states[|actions|].history == [map[], map[1 := Row(1, info.url, words)]]
  {
    states, actions := ToTheRow(lang, info, words);
    var row := Row(1, info.url, words);
    var stored, cancelled := StoredPool(info, row, false, false, Pools.Idle), StoredPool(info, row, true, false, Pools.Idle);
    var closed, done := StoredPool(info, row, true, true, Pools.Idle), StoredPool(info, row, true, true, Pools.Exited);
    states, actions := PoolGoes(lang, states, actions, stored, Pools.Cancel, cancelled);
    states, actions := PoolGoes(lang, states, actions, cancelled, Pools.Close, closed);
    states, actions := PoolGoes(lang, states, actions, closed, Pools.Exit(0), done);
    var s := AtPoolWith(done, row);
    assert states[|actions|] == s;
    s := s.(callers := [Releasing(Cancelled)], log := s.log + [Drained(0, true)]);
    states, actions := Go(lang, states, actions, Check(0), s);
    s := s.(running := false, callers := [Returned(Cancelled)], log := s.log + [Released(0, Cancelled)]);
    states, actions := Go(lang, states, actions, Release(0), s);
  }

  /**
   A run of both services in which an update stores a comic, is cancelled and returns: all is at rest, nothing is on
   its way, no List ever failed, and the index is not that of the table. For every word of the stored comic, every
   answer on the table has the comic and no answer on what is installed does.
   */
  lemma CancelledLeavesStale(lang: Language, info: Pools.Info, words: seq<string>)
    returns (worlds: seq<EndToEnd.World>, actions: seq<EndToEnd.Action>)
    requires info.id == 1 && Pools.RowFor(lang, info, Row(1, info.url, words))
    ensures EndToEnd.IsRun(lang, 1, 1, map[], 1, 0, worlds, actions)
    ensures var w := worlds[|actions|];
            && w.jobs.callers == [Returned(Cancelled)]
            && w.jobs.history != [] && Current(w.jobs) == map[1 := Row(1, info.url, words)]
            && SearchRuns.Undisturbed(w.search) && !w.search.past.lastFailed
            && Represents(w.search.index, w.search.comics, map[])
            && !Represents(w.search.index, w.search.comics, Current(w.jobs))
    ensures forall word, limit: nat, stale, right :: word in words && limit >= 1
              && IsAnswer(map[], {word}, limit, stale)
              && IsAnswer(map[1 := Row(1, info.url, words)], {word}, limit, right)
              ==> Comics(1, info.url) in right && 1 !in Ids(stale)
  {
    var states, steps := CancelledJob(lang, info, words);
    worlds, actions := UntoldJobsLeaveStale(lang, 1, 1, map[], 1, 0, states, steps);
    assert 1 in states[|steps|].history[1];
    forall word, limit: nat, stale, right | word in words && limit >= 1
        && IsAnswer(map[], {word}, limit, stale)
        && IsAnswer(map[1 := Row(1, info.url, words)], {word}, limit, right)
      ensures Comics(1, info.url) in right && 1 !in Ids(stale)
    {
      OneRowMissed(Row(1, info.url, words), word, limit, stale, right);
    }
  }

  lemma OneRowMissed(row: Row, word: string, limit: nat, stale: seq<Comics>, right: seq<Comics>)
    requires word in row.words && limit >= 1
    requires IsAnswer(map[], {word}, limit, stale) && IsAnswer(map[row.id := row], {word}, limit, right)
    ensures Comics(row.id, row.url) in right && row.id !in Ids(stale)
  {
    var current: Table := map[row.id := row];
    assert Matches({word}, current).Keys <= {row.id};
    SubsetCardinality(Matches({word}, current).Keys, {row.id});
    Staleness.OlderMisses(map[], current, word, row.id, limit, stale, right);
  }
}
