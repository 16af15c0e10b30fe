/** What holds in every state of every run of the update service's callers, and why the flag is always released. */
module JobRuns {
  import opened Lists
  import opened ComicsTable
  import opened MissingIds
  import opened Words
  import opened Jobs
  import opened JobLog
  import Pools = WorkerPool
  import PoolRuns = WorkerPoolRuns

  // ----- the table -----

  ghost predicate IdsWithin(table: Table, latest: int) {
    forall id :: id in table ==> 1 <= id <= latest
  }

  /** Every row is the one stored for something the comics site said: its words are duplicate-free keywords. */
  ghost predicate Sourced(lang: Language, table: Table) {
    forall id :: id in table ==> exists info :: Pools.RowFor(lang, info, table[id])
  }

  /** A pool at work is working off the gap of the table it began with, and has accounted for everything since. */
  ghost predicate PoolSound(lang: Language, caller: Caller, table: Table, latest: int, concurrency: nat) {
    caller.Pooling? ==>
      && Pools.Conserved(caller.pool)
      && Pools.Tracked(lang, caller.pool, caller.base, table)
      && caller.pool.ids == Missing(caller.lastID, caller.base.Keys)
      && |caller.pool.workers| == concurrency
      && caller.lastID <= latest
  }

  ghost predicate Sound(lang: Language, s: State, concurrency: nat) {
    && s.history != []
    && WellFormed(Current(s))
    && IdsWithin(Current(s), s.latest)
    && Sourced(lang, Current(s))
    && (forall c :: 0 <= c < |s.callers| ==> PoolSound(lang, s.callers[c], Current(s), s.latest, concurrency))
    && (forall c :: 0 <= c < |s.callers| && s.callers[c].ReadingIDs? ==> s.callers[c].lastID <= s.latest)
  }

  // ----- what the writes did -----

  /** The `n`th event is a write; this is what it did to the table before it. */
  ghost predicate WriteDone(history: seq<Table>, log: seq<Event>, n: nat)
    requires n < |log|
  {
    var v := Writes(log[..n]) + 1;
    && v < |history|
    && (log[n].Truncated? ==> history[v] == map[])
    && (log[n].Wrote? ==>
          var id := log[n].id;
          id !in history[v - 1] && id in history[v] && history[v] == history[v - 1][id := history[v][id]])
  }

  /** A drop leaves the table empty, and a stored comic is one row more, under an id that was free. */
  ghost predicate Written(s: State) {
    forall n: nat :: n < |s.log| && IsWrite(s.log[n]) ==> WriteDone(s.history, s.log, n)
  }

  /** The ids stored after these events, on top of those before. */
  function StoredIds(before: set<int>, log: seq<Event>): set<int> {
    if log == [] then before
    else
      var ids, e := StoredIds(before, log[..|log| - 1]), log[|log| - 1];
      if e.Truncated? then {} else if e.Wrote? then ids + {e.id} else ids
  }

  /** The log tells which ids the table has. */
  ghost predicate Replayed(s: State) {
    s.history != [] && Current(s).Keys == StoredIds(s.history[0].Keys, s.log)
  }

  /** A step that logs no write leaves the history alone; one that does appends the table it made. */
  lemma WritesAppend(lang: Language, s: State, a: Action, concurrency: nat)
    requires Sound(lang, s, concurrency) && Enabled(lang, s, a)
    ensures var t := Next(lang, s, a, concurrency);
            if t.log != s.log && IsWrite(t.log[|t.log| - 1]) then
              var e := t.log[|t.log| - 1];
              && t.history != [] && t.history == s.history + [Current(t)]
              && (e.Truncated? ==> Current(t) == map[])
              && (e.Wrote? ==> e.id !in Current(s) && e.id in Current(t)
                               && Current(t) == Current(s)[e.id := Current(t)[e.id]])
            else t.history == s.history
  {
    if a.PoolStep? && a.a.AddOk? {
      var caller := s.callers[a.c];
      assert PoolSound(lang, caller, Current(s), s.latest, concurrency);
      assert Pools.WorkerTracked(lang, caller.pool.workers[a.a.w]);
    }
  }

  lemma WriteStays(history: seq<Table>, log: seq<Event>, moreHistory: seq<Table>, moreLog: seq<Event>, n: nat)
    requires n < |log| && WriteDone(history, log, n) && history <= moreHistory && log <= moreLog
    ensures WriteDone(moreHistory, moreLog, n)
  {
    assert moreLog[..n] == log[..n];
  }

  /** One event more, with the table it made if it is a write. */
  ghost predicate Extended(s: State, t: State) {
    && t.log != [] && t.log == s.log + [t.log[|t.log| - 1]]
    && var e := t.log[|t.log| - 1];
       if IsWrite(e) then
         && s.history != [] && t.history != [] && t.history == s.history + [Current(t)]
         && (e.Truncated? ==> Current(t) == map[])
         && (e.Wrote? ==> e.id !in Current(s) && e.id in Current(t)
                          && Current(t) == Current(s)[e.id := Current(t)[e.id]])
       else t.history == s.history
  }

  lemma ExtendedWritten(s: State, t: State)
    requires Numbered(s) && Written(s) && Extended(s, t)
    ensures Written(t)
  {
    forall n: nat | n < |t.log| && IsWrite(t.log[n])
      ensures WriteDone(t.history, t.log, n)
    {
      if n < |s.log| {
        assert t.log[n] == s.log[n];
        WriteStays(s.history, s.log, t.history, t.log, n);
      } else {
        assert t.log[..n] == s.log;
      }
    }
  }

  lemma StoredAppend(before: set<int>, log: seq<Event>, e: Event)
    ensures StoredIds(before, log + [e])
         == if e.Truncated? then {} else if e.Wrote? then StoredIds(before, log) + {e.id} else StoredIds(before, log)
  {
    assert (log + [e])[..|log|] == log;
  }

  lemma ExtendedReplayed(s: State, t: State)
    requires Replayed(s) && Extended(s, t)
    ensures Replayed(t)
  {
    var e := t.log[|t.log| - 1];
    StoredAppend(s.history[0].Keys, s.log, e);
    assert t.history[0] == s.history[0];
    if e.Wrote? {
      assert Current(t).Keys == Current(s).Keys + {e.id};
    }
  }

  lemma StepWritten(lang: Language, s: State, a: Action, concurrency: nat)
    requires Sound(lang, s, concurrency) && Numbered(s) && Written(s) && Replayed(s) && Enabled(lang, s, a)
    ensures Written(Next(lang, s, a, concurrency)) && Replayed(Next(lang, s, a, concurrency))
  {
    var t := Next(lang, s, a, concurrency);
    LogGrows(lang, s, a, concurrency);
    WritesAppend(lang, s, a, concurrency);
    if t.log != s.log {
      assert Extended(s, t);
      ExtendedWritten(s, t);
      ExtendedReplayed(s, t);
    }
  }

  ghost predicate Invariant(lang: Language, s: State, concurrency: nat) {
    Exclusive(s) && Logged(s) && Numbered(s) && Sound(lang, s, concurrency) && Written(s) && Replayed(s)
  }

  /** The pool and the table after a pool step, apart from the other callers. */
  lemma PoolStepTable(lang: Language, caller: Caller, table: Table, latest: int, b: Pools.Action, concurrency: nat)
    requires caller.Pooling? && PoolSound(lang, caller, table, latest, concurrency)
    requires Pools.Enabled(lang, caller.pool, table, b) && Pools.InPlace(caller.pool, b)
    requires WellFormed(table) && IdsWithin(table, latest) && Sourced(lang, table)
    ensures var after := Pools.NextTable(caller.pool, table, b);
            && PoolSound(lang, caller.(pool := Pools.Next(caller.pool, b)), after, latest, concurrency)
            && WellFormed(after) && IdsWithin(after, latest) && Sourced(lang, after)
  {
    Pools.StepConserves(lang, caller.pool, table, b);
    Pools.StepTracks(lang, caller.pool, caller.base, table, b);
    if b.AddOk? {
      StoredRow(lang, caller, table, latest, b.w, concurrency);
    }
  }

  /** A row about to be stored fits into the table. */
  lemma StoredRow(lang: Language, caller: Caller, table: Table, latest: int, w: nat, concurrency: nat)
    requires caller.Pooling? && PoolSound(lang, caller, table, latest, concurrency)
    requires w < |caller.pool.workers| && caller.pool.workers[w].Adding?
    ensures var worker := caller.pool.workers[w];
            worker.row.id == worker.id && 1 <= worker.id <= latest && Pools.RowFor(lang, worker.info, worker.row)
  {
    var worker := caller.pool.workers[w];
    assert Pools.WorkerTracked(lang, worker);
    assert worker.id in Pools.Dispatched(caller.pool);
    assert worker.id in caller.pool.ids;
    MissingExact(caller.lastID, caller.base.Keys);
  }

  lemma PoolStepSound(lang: Language, s: State, c: nat, b: Pools.Action, concurrency: nat)
    requires Exclusive(s) && Sound(lang, s, concurrency) && Enabled(lang, s, PoolStep(c, b))
    ensures Sound(lang, Next(lang, s, PoolStep(c, b), concurrency), concurrency)
  {
    var caller := s.callers[c];
    var t := Next(lang, s, PoolStep(c, b), concurrency);
    assert PoolSound(lang, caller, Current(s), s.latest, concurrency);
    PoolStepTable(lang, caller, Current(s), s.latest, b, concurrency);
    assert Current(t) == Pools.NextTable(caller.pool, Current(s), b);
    assert t.callers[c] == caller.(pool := Pools.Next(caller.pool, b));
    assert IsOwner(s, c);
    forall d | 0 <= d < |t.callers| && d != c
      ensures t.callers[d] == s.callers[d] && !t.callers[d].Pooling?
    {
      assert s.callers[d].Pooling? ==> IsOwner(s, d);
    }
  }

  /** A step that neither writes nor touches a pool. */
  lemma QuietStepSound(lang: Language, s: State, t: State, c: nat, concurrency: nat)
    requires Sound(lang, s, concurrency) && c < |s.callers| && |t.callers| == |s.callers|
    requires t.history == s.history && t.latest == s.latest
    requires forall d :: 0 <= d < |s.callers| && d != c ==> t.callers[d] == s.callers[d]
    requires PoolSound(lang, t.callers[c], Current(s), s.latest, concurrency)
    requires t.callers[c].ReadingIDs? ==> t.callers[c].lastID <= s.latest
    ensures Sound(lang, t, concurrency)
  {
  }

  lemma StepSound(lang: Language, s: State, a: Action, concurrency: nat)
    requires Exclusive(s) && Sound(lang, s, concurrency) && Enabled(lang, s, a)
    ensures Sound(lang, Next(lang, s, a, concurrency), concurrency)
  {
    var t := Next(lang, s, a, concurrency);
    if a.PoolStep? {
      PoolStepSound(lang, s, a.c, a.a, concurrency);
    } else if a.Appear? {
      forall d | 0 <= d < |t.callers|
        ensures PoolSound(lang, t.callers[d], Current(t), t.latest, concurrency)
      {
        assert PoolSound(lang, s.callers[d], Current(s), s.latest, concurrency);
      }
    } else if a.Truncate? && a.ok {
      assert IsOwner(s, a.c);
      forall d | 0 <= d < |t.callers|
        ensures PoolSound(lang, t.callers[d], Current(t), t.latest, concurrency)
      {
        assert s.callers[d].Pooling? ==> IsOwner(s, d);
      }
    } else {
      if a.IDs? && a.ok {
        var lastID, table := s.callers[a.c].lastID, Current(s);
        PoolRuns.GapIsFresh(lastID, table);
        Pools.StartConserved(Missing(lastID, table.Keys), concurrency);
        Pools.StartTracked(lang, Missing(lastID, table.Keys), concurrency, table);
      }
      QuietStepSound(lang, s, t, a.c, concurrency);
    }
  }

  lemma StepInvariant(lang: Language, s: State, a: Action, concurrency: nat)
    requires Invariant(lang, s, concurrency) && Enabled(lang, s, a)
    ensures Invariant(lang, Next(lang, s, a, concurrency), concurrency)
  {
    StepExclusive(lang, s, a, concurrency);
    StepLogged(lang, s, a, concurrency);
    StepNumbered(lang, s, a, concurrency);
    StepSound(lang, s, a, concurrency);
    StepWritten(lang, s, a, concurrency);
  }

  // ----- runs -----

  /** A run of any number of callers, begun at rest on a table whose ids the site knows. */
  ghost predicate IsService(
    lang: Language, callers: nat, latest: int, table: Table, concurrency: nat,
    states: seq<State>, actions: seq<Action>)
  {
    && WellFormed(table) && IdsWithin(table, latest) && Sourced(lang, table)
    && IsRun(lang, concurrency, states, actions)
    && states[0] == Initial(callers, latest, table)
  }

  lemma {:induction false} RunInvariant(
    lang: Language, callers: nat, latest: int, table: Table, concurrency: nat,
    states: seq<State>, actions: seq<Action>, k: nat)
    requires IsService(lang, callers, latest, table, concurrency, states, actions) && k <= |actions|
    ensures Invariant(lang, states[k], concurrency)
  {
    if k > 0 {
      RunInvariant(lang, callers, latest, table, concurrency, states, actions, k - 1);
      assert states[k] == states[k - 1 + 1];
      StepInvariant(lang, states[k - 1], actions[k - 1], concurrency);
    }
  }

  /**
   Job exclusion over whole runs: the flag is set exactly when a caller owns it, no two do, and a step that
   changes the table is the owner's, taken while the flag is set.
   */
  lemma JobExclusion(
    lang: Language, callers: nat, latest: int, table: Table, concurrency: nat,
    states: seq<State>, actions: seq<Action>, k: nat)
    requires IsService(lang, callers, latest, table, concurrency, states, actions) && k <= |actions|
    ensures states[k].running <==> exists c :: IsOwner(states[k], c)
    ensures forall c, d :: IsOwner(states[k], c) && IsOwner(states[k], d) ==> c == d
    ensures k < |actions| && states[k + 1].history != states[k].history ==>
              states[k].running && states[k + 1].running
              && exists c :: By(actions[k], c) && IsOwner(states[k], c)
  {
    RunInvariant(lang, callers, latest, table, concurrency, states, actions, k);
    if k < |actions| && states[k + 1].history != states[k].history {
      WritesUnderTheFlag(lang, states[k], actions[k], concurrency);
    }
  }

  /** What each write did, in every state of every run, and which ids that leaves. */
  lemma TableFromLog(
    lang: Language, callers: nat, latest: int, table: Table, concurrency: nat,
    states: seq<State>, actions: seq<Action>, k: nat)
    requires IsService(lang, callers, latest, table, concurrency, states, actions) && k <= |actions|
    ensures var s := states[k];
            && s.history != [] && |s.history| == 1 + Writes(s.log)
            && (forall n: nat :: n < |s.log| && s.log[n].Truncated? ==> WriteDone(s.history, s.log, n))
            && (forall n: nat :: n < |s.log| && s.log[n].Wrote? ==> WriteDone(s.history, s.log, n))
            && Current(s).Keys == StoredIds(s.history[0].Keys, s.log)
  {
    RunInvariant(lang, callers, latest, table, concurrency, states, actions, k);
  }

  lemma {:induction false} NothingStoredSince(before: set<int>, log: seq<Event>, n: nat)
    requires n < |log| && log[n].Truncated? && forall m :: n < m < |log| ==> !log[m].Wrote?
    ensures StoredIds(before, log) == {}
  {
    if n < |log| - 1 {
      NothingStoredSince(before, log[..|log| - 1], n);
    }
  }

  /** After a drop that returned nil the table is empty until something is stored again. */
  lemma DropEmpties(
    lang: Language, callers: nat, latest: int, table: Table, concurrency: nat,
    states: seq<State>, actions: seq<Action>, k: nat, j: nat) returns (i: nat, job: Job)
    requires IsService(lang, callers, latest, table, concurrency, states, actions) && k <= |actions|
    requires j < |states[k].log| && states[k].log[j].Released? && states[k].log[j].outcome.Nil?
    requires forall m :: j < m < |states[k].log| ==> !states[k].log[m].Wrote?
    ensures i < j && states[k].log[i] == Acquired(states[k].log[j].c, job)
    ensures states[k].history != [] && (job.DropJob? ==> Current(states[k]) == map[])
  {
    i, job := ReleasedInRun(lang, callers, latest, table, concurrency, states, actions, k, j);
    RunInvariant(lang, callers, latest, table, concurrency, states, actions, k);
    var log := states[k].log;
    if job.DropJob? {
      var events := log[i + 1..j];
      assert events[0] == log[i + 1] && events[1] == log[i + 2];
      NothingStoredSince(states[k].history[0].Keys, log, i + 1);
    }
  }

  /** In every run each job that has released the flag did its part of the log in order. */
  lemma ReleasedInRun(
    lang: Language, callers: nat, latest: int, table: Table, concurrency: nat,
    states: seq<State>, actions: seq<Action>, k: nat, j: nat) returns (i: nat, job: Job)
    requires IsService(lang, callers, latest, table, concurrency, states, actions) && k <= |actions|
    requires j < |states[k].log| && states[k].log[j].Released?
    ensures i < j && states[k].log[i] == Acquired(states[k].log[j].c, job)
    ensures JobBlock(states[k].log[j].c, job, states[k].log[j].outcome, states[k].log[i + 1..j])
  {
    RunInvariant(lang, callers, latest, table, concurrency, states, actions, k);
    i, job := ReleasedJob(states[k].log, j);
  }

  /**
   Stored ids stay within 1..latest as long as the site's last id never falls, so no more comics are fetched
   than exist, and the difference is exactly the number of ids not stored.
   */
  lemma FetchedWithinTotal(
    lang: Language, callers: nat, latest: int, table: Table, concurrency: nat,
    states: seq<State>, actions: seq<Action>, k: nat)
    requires IsService(lang, callers, latest, table, concurrency, states, actions) && k <= |actions|
    ensures var s := states[k];
            && s.history != []
            && IdsWithin(Current(s), s.latest)
            && (s.latest >= 0 ==> s.latest - |Current(s)| == |Missing(s.latest, Current(s).Keys)|)
            && (s.latest >= 0 ==> |Current(s)| <= s.latest)
  {
    RunInvariant(lang, callers, latest, table, concurrency, states, actions, k);
    var s := states[k];
    MissingLength(s.latest, Current(s).Keys);
    assert InRange(Current(s).Keys, s.latest) == Current(s).Keys;
    if s.latest == 0 {
      assert Current(s).Keys == {};
    }
  }

  /**
   When an update's pool is through, whatever the other callers did meanwhile: the table is the one the update
   read its gap from plus the rows it stored, an uncancelled update processed the whole gap, and asking again
   with the same last id yields exactly the ids it did not store.
   */
  lemma UpdateAmongOthers(
    lang: Language, callers: nat, latest: int, table: Table, concurrency: nat,
    states: seq<State>, actions: seq<Action>, k: nat, c: nat)
    requires IsService(lang, callers, latest, table, concurrency, states, actions) && k <= |actions|
    requires c < |states[k].callers| && states[k].callers[c].Pooling? && Pools.Finished(states[k].callers[c].pool)
    ensures states[k].history != []
    ensures var Pooling(lastID, base, p) := states[k].callers[c];
            var gap := Missing(lastID, base.Keys);
            && Current(states[k]) == base + Pools.StoredRows(p)
            && (forall id :: id in base ==> id in Current(states[k]) && Current(states[k])[id] == base[id])
            && p.next <= |gap| && p.fates.Keys == ToSet(gap[..p.next])
            && (!p.cancelled ==> p.fates.Keys == ToSet(gap))
            && Missing(lastID, Current(states[k]).Keys) == Without(gap, Pools.StoredRows(p).Keys)
  {
    RunInvariant(lang, callers, latest, table, concurrency, states, actions, k);
    var s := states[k];
    var caller := s.callers[c];
    assert PoolSound(lang, caller, Current(s), s.latest, concurrency);
    Pools.ConservationMeans(caller.pool);
    Pools.TableEffect(lang, caller.pool, caller.base, Current(s));
    MissingAfterStoring(caller.lastID, caller.base.Keys, Pools.StoredRows(caller.pool).Keys);
  }

  // ----- releasing the flag -----

  /** How far a job is from the end; within the pool stage, the pool's own measure counts. */
  function Stage(caller: Caller): nat {
    match caller
    case Away => 0
    case Asking(_) => 0
    case Returned(_) => 0
    case Releasing(_) => 1
    case Notifying => 2
    case Truncating => 3
    case Pooling(_, _, _) => 4
    case ReadingIDs(_) => 5
    case ReadingLastID => 6
  }

  function PoolRest(caller: Caller): nat {
    if caller.Pooling? && caller.pool.next <= |caller.pool.ids| then PoolRuns.Measure(caller.pool) else 0
  }

  /** Every own step takes the owner closer to releasing the flag; steps of others leave it where it is. */
  lemma OwnerAdvances(lang: Language, s: State, a: Action, concurrency: nat, c: nat)
    requires Invariant(lang, s, concurrency) && Enabled(lang, s, a) && IsOwner(s, c)
    ensures !By(a, c) ==> Next(lang, s, a, concurrency).callers[c] == s.callers[c]
    ensures By(a, c) ==>
              var before, after := s.callers[c], Next(lang, s, a, concurrency).callers[c];
              Stage(after) < Stage(before) || (Stage(after) == Stage(before) && PoolRest(after) < PoolRest(before))
  {
    if a.PoolStep? && a.c == c {
      assert PoolSound(lang, s.callers[c], Current(s), s.latest, concurrency);
      PoolRuns.StepDecreases(lang, s.callers[c].pool, Current(s), a.a);
    }
  }

  /** The owner can always take a step of its own, without waiting for a cancellation or for anybody else. */
  lemma OwnerNeverBlocked(lang: Language, s: State, concurrency: nat, c: nat)
    requires Invariant(lang, s, concurrency) && concurrency >= 1 && IsOwner(s, c)
    ensures exists a :: By(a, c) && Enabled(lang, s, a) && !(a.PoolStep? && a.a.Cancel?)
  {
    var caller := s.callers[c];
    match caller
    case ReadingLastID => assert By(LastID(c, true), c) && Enabled(lang, s, LastID(c, true));
    case ReadingIDs(_) => assert By(IDs(c, true), c) && Enabled(lang, s, IDs(c, true));
    case Truncating => assert By(Truncate(c, true), c) && Enabled(lang, s, Truncate(c, true));
    case Notifying => assert By(Notify(c, true), c) && Enabled(lang, s, Notify(c, true));
    case Releasing(_) => assert By(Release(c), c) && Enabled(lang, s, Release(c));
    case Pooling(_, _, pool) =>
      assert PoolSound(lang, caller, Current(s), s.latest, concurrency);
      if Pools.Finished(pool) {
        assert By(Check(c), c) && Enabled(lang, s, Check(c));
      } else {
        PoolRuns.Progress(lang, pool, Current(s));
        var b :| Pools.Enabled(lang, pool, Current(s), b) && !b.Cancel?;
        Pools.StepConserves(lang, pool, Current(s), b);
        assert By(PoolStep(c, b), c) && Enabled(lang, s, PoolStep(c, b));
      }
  }

  /** Whatever a busy worker's call comes to, the pool can take it. */
  ghost predicate AnyOutcome(lang: Language, p: Pools.Pool, table: Table, w: nat)
    requires w < |p.workers|
  {
    match p.workers[w]
    case Getting(id) =>
      && Pools.Enabled(lang, p, table, Pools.GetNotFound(w)) && Pools.Enabled(lang, p, table, Pools.GetFailed(w))
      && forall info: Pools.Info :: info.id == id ==> Pools.Enabled(lang, p, table, Pools.GetOk(w, info))
    case Norming(id, info) =>
      && Pools.Enabled(lang, p, table, Pools.NormFailed(w))
      && forall words ::
           NoDup(words) && ToSet(words) == Keywords(lang, info.title + " " + info.description) ==>
             Pools.Enabled(lang, p, table, Pools.NormOk(w, words))
    case Adding(_, _, _) =>
      Pools.Enabled(lang, p, table, Pools.AddOk(w)) && Pools.Enabled(lang, p, table, Pools.AddFailed(w))
    case _ => true
  }

  /**
   Nothing that may happen is ruled out: who is not at a job can call for either, a call for either answer can be
   taken, a notification may get through or not, and each busy worker's call may come to anything, an INSERT included,
   as its id is always free.
   */
  lemma AnyAnswerIsTaken(lang: Language, s: State, concurrency: nat, c: nat)
    requires Invariant(lang, s, concurrency) && c < |s.callers|
    ensures match s.callers[c]
            case Away => forall job :: Enabled(lang, s, Call(c, job))
            case Returned(_) => forall job :: Enabled(lang, s, Call(c, job))
            case Asking(_) => Enabled(lang, s, Swap(c))
            case ReadingLastID => forall ok :: Enabled(lang, s, LastID(c, ok))
            case ReadingIDs(_) => forall ok :: Enabled(lang, s, IDs(c, ok))
            case Pooling(_, _, p) => forall w: nat :: w < |p.workers| ==> AnyOutcome(lang, p, Current(s), w)
            case Truncating => forall ok :: Enabled(lang, s, Truncate(c, ok))
            case Notifying => forall ok :: Enabled(lang, s, Notify(c, ok))
            case Releasing(_) => Enabled(lang, s, Release(c))
  {
    SoundTakesAny(lang, s, concurrency, c);
  }

  lemma SoundTakesAny(lang: Language, s: State, concurrency: nat, c: nat)
    requires Sound(lang, s, concurrency) && c < |s.callers|
    ensures match s.callers[c]
            case Away => forall job :: Enabled(lang, s, Call(c, job))
            case Returned(_) => forall job :: Enabled(lang, s, Call(c, job))
            case Asking(_) => Enabled(lang, s, Swap(c))
            case ReadingLastID => forall ok :: Enabled(lang, s, LastID(c, ok))
            case ReadingIDs(_) => forall ok :: Enabled(lang, s, IDs(c, ok))
            case Pooling(_, _, p) => forall w: nat :: w < |p.workers| ==> AnyOutcome(lang, p, Current(s), w)
            case Truncating => forall ok :: Enabled(lang, s, Truncate(c, ok))
            case Notifying => forall ok :: Enabled(lang, s, Notify(c, ok))
            case Releasing(_) => Enabled(lang, s, Release(c))
  {
    var caller := s.callers[c];
    if caller.Pooling? {
      assert PoolSound(lang, caller, Current(s), s.latest, concurrency);
      PoolTakesAny(lang, caller.pool, caller.base, Current(s));
    }
  }

  lemma PoolTakesAny(lang: Language, p: Pools.Pool, base: Table, table: Table)
    requires Pools.Conserved(p) && Pools.Tracked(lang, p, base, table)
    ensures forall w: nat :: w < |p.workers| ==> AnyOutcome(lang, p, table, w)
  {
    forall w: nat | w < |p.workers|
      ensures AnyOutcome(lang, p, table, w)
    {
      if p.workers[w].Adding? {
        Pools.NoKeyConflict(lang, p, base, table, w);
      }
    }
  }

  /** The steps caller `c` itself takes from state `i` to state `k`. */
  ghost function OwnSteps(actions: seq<Action>, c: nat, i: nat, k: nat): nat
    requires i <= k <= |actions|
  {
    if i == k then 0 else OwnSteps(actions, c, i, k - 1) + (if By(actions[k - 1], c) then 1 else 0)
  }

  /** The most steps a caller can still need to release the flag, if its gap holds at most `gap` ids. */
  function Budget(caller: Caller, gap: nat, concurrency: nat): nat {
    match caller
    case Away => 0
    case Asking(_) => 0
    case Returned(_) => 0
    case Releasing(_) => 1
    case Notifying => 2
    case Truncating => 3
    case Pooling(_, _, _) => PoolRest(caller) + 3
    case ReadingIDs(_) => 5 * gap + concurrency + 6
    case ReadingLastID => 5 * gap + concurrency + 7
  }

  lemma OwnStepSpends(lang: Language, s: State, a: Action, concurrency: nat, c: nat, gap: nat)
    requires Invariant(lang, s, concurrency) && Enabled(lang, s, a) && IsOwner(s, c) && By(a, c)
    requires var caller := Next(lang, s, a, concurrency).callers[c]; caller.Pooling? ==> |caller.pool.ids| <= gap
    ensures Budget(Next(lang, s, a, concurrency).callers[c], gap, concurrency) < Budget(s.callers[c], gap, concurrency)
  {
    OwnerAdvances(lang, s, a, concurrency, c);
    if a.IDs? {
      PoolRuns.WeightsIdle(concurrency, seq(concurrency, i => Pools.Idle));
    }
  }

  lemma StepKeepsBudget(lang: Language, s: State, a: Action, concurrency: nat, c: nat, gap: nat)
    requires Invariant(lang, s, concurrency) && Enabled(lang, s, a) && IsOwner(s, c)
    requires GapWithin(Next(lang, s, a, concurrency), c, gap)
    ensures c < |Next(lang, s, a, concurrency).callers|
    ensures (if By(a, c) then 1 else 0) + Budget(Next(lang, s, a, concurrency).callers[c], gap, concurrency)
         <= Budget(s.callers[c], gap, concurrency)
  {
    OthersStay(lang, s, a, concurrency);
    if By(a, c) {
      OwnStepSpends(lang, s, a, concurrency, c, gap);
    }
  }

  /** If caller `c` is working on a gap, it holds at most `gap` ids. */
  ghost predicate GapWithin(s: State, c: nat, gap: nat) {
    c < |s.callers| && s.callers[c].Pooling? ==> |s.callers[c].pool.ids| <= gap
  }

  /** Caller `c` holds the flag from state `i` up to state `k`, and finds at most `gap` ids missing. */
  ghost predicate HoldsThrough(states: seq<State>, c: nat, i: nat, k: nat, gap: nat) {
    && i <= k < |states|
    && (forall j :: i <= j < k ==> IsOwner(states[j], c))
    && (forall j :: i <= j <= k ==> GapWithin(states[j], c, gap))
  }

  /** The step out of state `j` costs caller `c` its share of the budget. */
  ghost predicate Spends(states: seq<State>, actions: seq<Action>, concurrency: nat, c: nat, gap: nat, j: nat)
    requires j < |actions| && |states| == |actions| + 1
  {
    && c < |states[j].callers| && c < |states[j + 1].callers|
    && (if By(actions[j], c) then 1 else 0) + Budget(states[j + 1].callers[c], gap, concurrency)
       <= Budget(states[j].callers[c], gap, concurrency)
  }

  lemma RunSpends(
    lang: Language, callers: nat, latest: int, table: Table, concurrency: nat,
    states: seq<State>, actions: seq<Action>, j: nat, c: nat, gap: nat)
    requires IsService(lang, callers, latest, table, concurrency, states, actions) && j < |actions|
    requires IsOwner(states[j], c) && GapWithin(states[j + 1], c, gap)
    ensures Spends(states, actions, concurrency, c, gap, j)
  {
    RunInvariant(lang, callers, latest, table, concurrency, states, actions, j);
    assert Enabled(lang, states[j], actions[j]) && states[j + 1] == Next(lang, states[j], actions[j], concurrency);
    StepKeepsBudget(lang, states[j], actions[j], concurrency, c, gap);
  }

  lemma {:induction false} OwnStepsSpend(
    states: seq<State>, actions: seq<Action>, concurrency: nat, c: nat, gap: nat, i: nat, k: nat)
    requires i <= k <= |actions| && |states| == |actions| + 1 && c < |states[i].callers|
    requires forall j: nat :: i <= j < k ==> Spends(states, actions, concurrency, c, gap, j)
    ensures c < |states[k].callers|
    ensures OwnSteps(actions, c, i, k) + Budget(states[k].callers[c], gap, concurrency)
         <= Budget(states[i].callers[c], gap, concurrency)
    decreases k
  {
    if i < k {
      OwnStepsSpend(states, actions, concurrency, c, gap, i, k - 1);
      assert Spends(states, actions, concurrency, c, gap, k - 1);
    }
  }

  /**
   Whatever the other callers do in between, a caller that has taken the flag releases it with its
   (5 * gap + concurrency + 7)th own step at the latest, where the gap is what it finds missing; and as long as it
   holds it, it has a step to take.
   */
  lemma FlagIsReleased(
    lang: Language, callers: nat, latest: int, table: Table, concurrency: nat,
    states: seq<State>, actions: seq<Action>, i: nat, k: nat, c: nat, gap: nat)
    requires IsService(lang, callers, latest, table, concurrency, states, actions)
    requires HoldsThrough(states, c, i, k, gap)
    requires i > 0 && actions[i - 1] == Swap(c) && IsOwner(states[i], c)
    ensures OwnSteps(actions, c, i, k) <= 5 * gap + concurrency + 7
    ensures IsOwner(states[k], c) ==> OwnSteps(actions, c, i, k) < 5 * gap + concurrency + 7
    ensures concurrency >= 1 && (forall a :: By(a, c) && Enabled(lang, states[k], a) ==> a.PoolStep? && a.a.Cancel?)
            ==> !IsOwner(states[k], c)
  {
    assert states[i] == states[i - 1 + 1];
    assert Enabled(lang, states[i - 1], actions[i - 1]);
    forall j: nat | i <= j < k
      ensures Spends(states, actions, concurrency, c, gap, j)
    {
      RunSpends(lang, callers, latest, table, concurrency, states, actions, j, c, gap);
    }
    OwnStepsSpend(states, actions, concurrency, c, gap, i, k);
    RunInvariant(lang, callers, latest, table, concurrency, states, actions, k);
    if concurrency >= 1 && IsOwner(states[k], c) {
      OwnerNeverBlocked(lang, states[k], concurrency, c);
    }
  }

  lemma {:induction false} LatestGrows(
    lang: Language, concurrency: nat, states: seq<State>, actions: seq<Action>, i: nat, k: nat)
    requires IsRun(lang, concurrency, states, actions) && i <= k <= |actions|
    ensures states[i].latest <= states[k].latest
    decreases k
  {
    if i < k {
      LatestGrows(lang, concurrency, states, actions, i, k - 1);
      assert states[k] == states[k - 1 + 1];
      assert Enabled(lang, states[k - 1], actions[k - 1]);
    }
  }

  /** The site's last id is the one it published last. */
  function LastPublished(latest: int, actions: seq<Action>, k: nat): int
    requires k <= |actions|
  {
    if k == 0 then latest
    else if actions[k - 1].Appear? then actions[k - 1].latest
    else LastPublished(latest, actions, k - 1)
  }

  lemma {:induction false} LatestIsPublished(
    lang: Language, concurrency: nat, states: seq<State>, actions: seq<Action>, k: nat)
    requires IsRun(lang, concurrency, states, actions) && k <= |actions|
    ensures states[k].latest == LastPublished(states[0].latest, actions, k)
  {
    if k > 0 {
      LatestIsPublished(lang, concurrency, states, actions, k - 1);
      assert Enabled(lang, states[k - 1], actions[k - 1]);
      assert states[k - 1 + 1] == Next(lang, states[k - 1], actions[k - 1], concurrency);
    }
  }

  /** A gap is never larger than the site's last id by then, so this bounds every job's own steps. */
  lemma JobsAreBounded(
    lang: Language, callers: nat, latest: int, table: Table, concurrency: nat,
    states: seq<State>, actions: seq<Action>, i: nat, k: nat, c: nat)
    requires IsService(lang, callers, latest, table, concurrency, states, actions) && i <= k <= |actions|
    requires forall j :: i <= j < k ==> IsOwner(states[j], c)
    requires i > 0 && actions[i - 1] == Swap(c) && IsOwner(states[i], c)
    ensures OwnSteps(actions, c, i, k) <= 5 * (if states[k].latest >= 0 then states[k].latest else 0) + concurrency + 7
  {
    var gap := if states[k].latest >= 0 then states[k].latest else 0;
    forall j | i <= j <= k
      ensures GapWithin(states[j], c, gap)
    {
      if c < |states[j].callers| && states[j].callers[c].Pooling? {
        GapWithinLatest(lang, callers, latest, table, concurrency, states, actions, j, c);
      }
      LatestGrows(lang, concurrency, states, actions, j, k);
    }
    FlagIsReleased(lang, callers, latest, table, concurrency, states, actions, i, k, c, gap);
  }

  lemma GapWithinLatest(
    lang: Language, callers: nat, latest: int, table: Table, concurrency: nat,
    states: seq<State>, actions: seq<Action>, k: nat, c: nat)
    requires IsService(lang, callers, latest, table, concurrency, states, actions) && k <= |actions|
    requires c < |states[k].callers| && states[k].callers[c].Pooling?
    ensures |states[k].callers[c].pool.ids| <= if states[k].latest >= 0 then states[k].latest else 0
  {
    RunInvariant(lang, callers, latest, table, concurrency, states, actions, k);
    var caller := states[k].callers[c];
    assert PoolSound(lang, caller, Current(states[k]), states[k].latest, concurrency);
    MissingLength(caller.lastID, caller.base.Keys);
  }
}
