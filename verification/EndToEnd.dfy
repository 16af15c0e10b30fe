/** The two services on one table: what the update service's jobs write is what the search service comes to answer. */
module EndToEnd {
  import opened Lists
  import opened ComicsTable
  import opened InvertedIndex
  import opened Counters
  import opened Words
  import Jobs
  import JobLog
  import JobRuns
  import Search = Propagation
  import SearchRuns = PropagationRuns
  import Staleness
  import QueryAlgebra
  import Pools = WorkerPool

  datatype World = World(jobs: Jobs.State, search: Search.State)

  datatype Action = JobStep(a: Jobs.Action) | SearchStep(b: Search.Action)

  /** What the database and the broker show of a job's step: a write, a message, or nothing. */
  function Shown(s: Jobs.State, a: Jobs.Action, t: Jobs.State): Search.Outside
    requires t.history != []
  {
    if t.history != s.history then Search.Commit(Jobs.Current(t))
    else if a.Notify? && a.ok then Search.Publish
    else Search.Elsewhere
  }

  /** Either a caller of the update service moves, and the store and the broker follow, or the search side does. */
  ghost predicate Step(lang: Language, concurrency: nat, w: World, a: Action, v: World) {
    match a
    case JobStep(b) =>
      && Jobs.Enabled(lang, w.jobs, b) && v.jobs == Jobs.Next(lang, w.jobs, b, concurrency)
      && v.jobs.history != []
      && Search.OutsideEnabled(w.search, Shown(w.jobs, b, v.jobs))
      && v.search == Search.OutsideNext(w.search, Shown(w.jobs, b, v.jobs))
    case SearchStep(b) =>
      && Search.Enabled(w.search, b) && !(b.Env? && (b.o.Commit? || b.o.Publish?))
      && v == World(w.jobs, Search.Next(w.search, b))
  }

  /** A run of both services from rest, on a table whose rows the site said. */
  ghost predicate IsRun(
    lang: Language, callers: nat, latest: int, table: Table, concurrency: nat, readers: nat,
    worlds: seq<World>, actions: seq<Action>)
  {
    && WellFormed(table) && JobRuns.IdsWithin(table, latest) && JobRuns.Sourced(lang, table)
    && |worlds| == |actions| + 1
    && worlds[0] == World(Jobs.Initial(callers, latest, table), Search.Initial(table, readers))
    && forall i :: 0 <= i < |actions| ==> Step(lang, concurrency, worlds[i], actions[i], worlds[i + 1])
  }

  // ----- each service's part of a run is a run of its own -----

  lemma HistoryGrowsByOne(lang: Language, s: Jobs.State, a: Jobs.Action, concurrency: nat)
    requires Jobs.Enabled(lang, s, a)
    ensures var t := Jobs.Next(lang, s, a, concurrency);
            t.history == s.history || (t.history != [] && t.history == s.history + [Jobs.Current(t)])
  {
  }

  lemma HistoryStays(s: Search.State, a: Search.Action)
    requires Search.Enabled(s, a) && !(a.Env? && a.o.Commit?)
    ensures Search.Next(s, a).history == s.history
  {
    match a
    case Env(_) =>
    case Build(_, _) =>
    case Search(_, _) =>
  }

  lemma StepAgrees(lang: Language, concurrency: nat, w: World, a: Action, v: World)
    requires Step(lang, concurrency, w, a, v) && w.jobs.history == w.search.history && w.jobs.history != []
    ensures v.jobs.history == v.search.history && v.jobs.history != []
  {
    match a
    case JobStep(b) => HistoryGrowsByOne(lang, w.jobs, b, concurrency);
    case SearchStep(b) => HistoryStays(w.search, b);
  }

  /** Both services see one history of the table. */
  lemma {:induction false} HistoriesAgree(
    lang: Language, callers: nat, latest: int, table: Table, concurrency: nat, readers: nat,
    worlds: seq<World>, actions: seq<Action>, k: nat)
    requires IsRun(lang, callers, latest, table, concurrency, readers, worlds, actions) && k <= |actions|
    ensures worlds[k].jobs.history == worlds[k].search.history && worlds[k].jobs.history != []
  {
    if k > 0 {
      HistoriesAgree(lang, callers, latest, table, concurrency, readers, worlds, actions, k - 1);
      assert worlds[k] == worlds[k - 1 + 1];
      StepAgrees(lang, concurrency, worlds[k - 1], actions[k - 1], worlds[k]);
    }
  }

  /** How the search side sees a step. */
  function SearchAction(w: World, a: Action, v: World): Search.Action {
    match a
    case JobStep(b) => Search.Env(if v.jobs.history == [] then Search.Elsewhere else Shown(w.jobs, b, v.jobs))
    case SearchStep(b) => b
  }

  /** How the update side sees a step; a step of the search side is one in which nothing appears. */
  function JobAction(w: World, a: Action): Jobs.Action {
    match a
    case JobStep(b) => b
    case SearchStep(_) => Jobs.Appear(w.jobs.latest)
  }

  function SearchStates(worlds: seq<World>): seq<Search.State> {
    seq(|worlds|, i requires 0 <= i < |worlds| => worlds[i].search)
  }

  function SearchActions(worlds: seq<World>, actions: seq<Action>): seq<Search.Action>
    requires |worlds| == |actions| + 1
  {
    seq(|actions|, i requires 0 <= i < |actions| => SearchAction(worlds[i], actions[i], worlds[i + 1]))
  }

  function JobStates(worlds: seq<World>): seq<Jobs.State> {
    seq(|worlds|, i requires 0 <= i < |worlds| => worlds[i].jobs)
  }

  function JobActions(worlds: seq<World>, actions: seq<Action>): seq<Jobs.Action>
    requires |worlds| == |actions| + 1
  {
    seq(|actions|, i requires 0 <= i < |actions| => JobAction(worlds[i], actions[i]))
  }

  lemma SearchSideStep(lang: Language, concurrency: nat, w: World, a: Action, v: World)
    requires Step(lang, concurrency, w, a, v)
    ensures Search.Enabled(w.search, SearchAction(w, a, v))
    ensures v.search == Search.Next(w.search, SearchAction(w, a, v))
  {
  }

  lemma SearchSideRuns(
    lang: Language, callers: nat, latest: int, table: Table, concurrency: nat, readers: nat,
    worlds: seq<World>, actions: seq<Action>)
    requires IsRun(lang, callers, latest, table, concurrency, readers, worlds, actions)
    ensures Search.IsRun(table, readers, SearchStates(worlds), SearchActions(worlds, actions))
  {
    var states, acts := SearchStates(worlds), SearchActions(worlds, actions);
    forall i | 0 <= i < |acts|
      ensures Search.Enabled(states[i], acts[i]) && states[i + 1] == Search.Next(states[i], acts[i])
    {
      SearchSideStep(lang, concurrency, worlds[i], actions[i], worlds[i + 1]);
    }
  }

  lemma JobSideStep(lang: Language, concurrency: nat, w: World, a: Action, v: World)
    requires Step(lang, concurrency, w, a, v) && w.jobs.history != []
    ensures Jobs.Enabled(lang, w.jobs, JobAction(w, a))
    ensures v.jobs == Jobs.Next(lang, w.jobs, JobAction(w, a), concurrency)
  {
  }

  lemma JobSideRuns(
    lang: Language, callers: nat, latest: int, table: Table, concurrency: nat, readers: nat,
    worlds: seq<World>, actions: seq<Action>)
    requires IsRun(lang, callers, latest, table, concurrency, readers, worlds, actions)
    ensures JobRuns.IsService(lang, callers, latest, table, concurrency, JobStates(worlds), JobActions(worlds, actions))
  {
    var states, acts := JobStates(worlds), JobActions(worlds, actions);
    forall i | 0 <= i < |acts|
      ensures Jobs.Enabled(lang, states[i], acts[i])
      ensures states[i + 1] == Jobs.Next(lang, states[i], acts[i], concurrency)
    {
      HistoriesAgree(lang, callers, latest, table, concurrency, readers, worlds, actions, i);
      JobSideStep(lang, concurrency, worlds[i], actions[i], worlds[i + 1]);
    }
  }

  // ----- both together -----

  ghost predicate Invariant(lang: Language, concurrency: nat, w: World) {
    && JobRuns.Invariant(lang, w.jobs, concurrency)
    && SearchRuns.Invariant(w.search)
    && w.jobs.history == w.search.history
  }

  lemma RunInvariant(
    lang: Language, callers: nat, latest: int, table: Table, concurrency: nat, readers: nat,
    worlds: seq<World>, actions: seq<Action>, k: nat)
    requires IsRun(lang, callers, latest, table, concurrency, readers, worlds, actions) && k <= |actions|
    ensures Invariant(lang, concurrency, worlds[k])
  {
    HistoriesAgree(lang, callers, latest, table, concurrency, readers, worlds, actions, k);
    SearchSideRuns(lang, callers, latest, table, concurrency, readers, worlds, actions);
    SearchRuns.RunInvariant(table, readers, SearchStates(worlds), SearchActions(worlds, actions), k);
    JobSideRuns(lang, callers, latest, table, concurrency, readers, worlds, actions);
    JobRuns.RunInvariant(lang, callers, latest, table, concurrency,
                         JobStates(worlds), JobActions(worlds, actions), k);
  }

  /** The search side never holds a job up: whatever a job may do, the store and the broker can follow. */
  lemma JobsAreNeverHeldUp(lang: Language, concurrency: nat, w: World, a: Jobs.Action)
    requires Invariant(lang, concurrency, w) && Jobs.Enabled(lang, w.jobs, a)
    ensures exists v :: Step(lang, concurrency, w, JobStep(a), v)
  {
    JobRuns.StepInvariant(lang, w.jobs, a, concurrency);
    var jobs := Jobs.Next(lang, w.jobs, a, concurrency);
    var search := Search.OutsideNext(w.search, Shown(w.jobs, a, jobs));
    assert Step(lang, concurrency, w, JobStep(a), World(jobs, search));
  }

  // ----- from the job log to the broker -----

  /** The log's `n`th event is a notification that got through. */
  ghost predicate Told(log: seq<Jobs.Event>, n: nat) {
    n < |log| && log[n].Notified? && log[n].ok
  }

  /** Every message, on its way or delivered, was sent by a job and carries its version. */
  ghost predicate Sent(w: World) {
    && (forall v :: v in w.search.inflight ==> exists n: nat :: Told(w.jobs.log, n) && w.jobs.log[n].version == v)
    && (w.search.past.delivered >= 0 ==>
          exists n: nat :: Told(w.jobs.log, n) && w.jobs.log[n].version == w.search.past.delivered)
  }

  /** Every message sent is on its way, or has been delivered, or a newer one has. */
  ghost predicate Kept(w: World) {
    forall n: nat :: Told(w.jobs.log, n) ==>
      w.jobs.log[n].version in w.search.inflight || w.jobs.log[n].version <= w.search.past.delivered
  }

  /** A job's step logs one notification that got through, and sends its message, or neither. */
  lemma TellingSends(lang: Language, concurrency: nat, s: Jobs.State, a: Jobs.Action)
    requires Jobs.Enabled(lang, s, a)
    ensures var t := Jobs.Next(lang, s, a, concurrency);
            && s.log <= t.log
            && (forall n: nat :: n >= |s.log| ==>
                  (Told(t.log, n) <==> n == |s.log| && a.Notify? && a.ok && t.log[n].version == |s.history| - 1))
            && (a.Notify? ==> t.history == s.history && |t.log| == |s.log| + 1)
  {
  }

  /** What the broker sees of it. */
  lemma TellingShows(lang: Language, concurrency: nat, w: World, a: Jobs.Action, v: World)
    requires Step(lang, concurrency, w, JobStep(a), v)
    ensures v.jobs == Jobs.Next(lang, w.jobs, a, concurrency)
    ensures v.search.past == w.search.past
    ensures v.search.inflight == w.search.inflight
            || (a.Notify? && a.ok && v.search.inflight == w.search.inflight + multiset{Search.Latest(w.search)})
    ensures a.Notify? && a.ok && v.jobs.history == w.jobs.history ==>
              v.search.inflight == w.search.inflight + multiset{Search.Latest(w.search)}
  {
  }

  lemma QuietStepSent(w: World, v: World)
    requires Sent(w) && w.jobs.log <= v.jobs.log && v.search.past == w.search.past
    requires v.search.inflight == w.search.inflight
    requires forall n: nat :: n >= |w.jobs.log| ==> !Told(v.jobs.log, n)
    ensures Sent(v)
    ensures Kept(w) ==> Kept(v)
  {
    assert forall n: nat :: Told(w.jobs.log, n) <==> Told(v.jobs.log, n);
    assert forall n: nat :: n < |w.jobs.log| ==> v.jobs.log[n] == w.jobs.log[n];
  }

  lemma TellingStepSent(w: World, v: World, version: nat)
    requires Sent(w) && w.jobs.log <= v.jobs.log && v.search.past == w.search.past
    requires v.search.inflight == w.search.inflight + multiset{version}
    requires |v.jobs.log| == |w.jobs.log| + 1
    requires Told(v.jobs.log, |w.jobs.log|) && v.jobs.log[|w.jobs.log|].version == version
    ensures Sent(v)
    ensures Kept(w) ==> Kept(v)
  {
    assert forall n: nat :: Told(v.jobs.log, n) <==> Told(w.jobs.log, n) || n == |w.jobs.log|;
    assert forall n: nat :: n < |w.jobs.log| ==> v.jobs.log[n] == w.jobs.log[n];
  }

  lemma JobStepSent(lang: Language, concurrency: nat, w: World, a: Jobs.Action, v: World)
    requires Step(lang, concurrency, w, JobStep(a), v) && w.jobs.history == w.search.history
    requires Sent(w)
    ensures Sent(v)
    ensures Kept(w) ==> Kept(v)
  {
    assert Jobs.Enabled(lang, w.jobs, a);
    TellingSends(lang, concurrency, w.jobs, a);
    TellingShows(lang, concurrency, w, a, v);
    if a.Notify? && a.ok {
      TellingStepSent(w, v, |w.jobs.history| - 1);
    } else {
      QuietStepSent(w, v);
    }
  }

  /** The broker delivers, loses, or the search side moves by itself. */
  lemma BrokerStep(s: Search.State, a: Search.Action)
    requires Search.Enabled(s, a) && !(a.Env? && (a.o.Commit? || a.o.Publish?))
    ensures var t := Search.Next(s, a);
            && (forall v :: v in t.inflight ==> v in s.inflight)
            && (t.past.delivered == s.past.delivered || t.past.delivered in s.inflight)
            && s.past.delivered <= t.past.delivered
            && (!(a.Env? && a.o.Lose?) ==>
                  forall v :: v in s.inflight ==> v in t.inflight || v <= t.past.delivered)
  {
    match a
    case Env(_) =>
    case Build(_, _) =>
    case Search(_, _) =>
  }

  lemma SearchStepSent(lang: Language, concurrency: nat, w: World, a: Search.Action, v: World)
    requires Step(lang, concurrency, w, SearchStep(a), v) && Sent(w)
    ensures Sent(v)
    ensures Kept(w) && !(a.Env? && a.o.Lose?) ==> Kept(v)
  {
    BrokerStep(w.search, a);
  }

  predicate Loses(a: Action) {
    a.SearchStep? && a.b.Env? && a.b.o.Lose?
  }

  /** The broker loses nothing in the first `k` steps. */
  ghost predicate Lossless(actions: seq<Action>, k: nat) {
    forall i :: 0 <= i < k && i < |actions| ==> !Loses(actions[i])
  }

  lemma StepSent(lang: Language, concurrency: nat, w: World, a: Action, v: World)
    requires Step(lang, concurrency, w, a, v) && w.jobs.history == w.search.history && Sent(w)
    ensures Sent(v)
    ensures Kept(w) && !Loses(a) ==> Kept(v)
  {
    match a
    case JobStep(b) => JobStepSent(lang, concurrency, w, b, v);
    case SearchStep(b) => SearchStepSent(lang, concurrency, w, b, v);
  }

  lemma {:induction false} RunSent(
    lang: Language, callers: nat, latest: int, table: Table, concurrency: nat, readers: nat,
    worlds: seq<World>, actions: seq<Action>, k: nat)
    requires IsRun(lang, callers, latest, table, concurrency, readers, worlds, actions) && k <= |actions|
    ensures Sent(worlds[k])
    ensures Lossless(actions, k) ==> Kept(worlds[k])
  {
    if k > 0 {
      RunSent(lang, callers, latest, table, concurrency, readers, worlds, actions, k - 1);
      HistoriesAgree(lang, callers, latest, table, concurrency, readers, worlds, actions, k - 1);
      assert Lossless(actions, k) ==> Lossless(actions, k - 1) && !Loses(actions[k - 1]);
      StepSent(lang, concurrency, worlds[k - 1], actions[k - 1], worlds[k - 1 + 1]);
    }
  }

  /** After the `n`th event the log records no write. */
  ghost predicate NoWriteSince(log: seq<Jobs.Event>, n: nat) {
    forall m :: n <= m < |log| ==> !JobLog.IsWrite(log[m])
  }

  /** Some notification got through and nothing was written since. */
  ghost predicate AllTold(log: seq<Jobs.Event>) {
    exists n: nat :: Told(log, n) && NoWriteSince(log, n)
  }

  lemma {:induction false} WritesSince(log: seq<Jobs.Event>, n: nat)
    requires n <= |log|
    ensures JobLog.Writes(log[..n]) <= JobLog.Writes(log)
    ensures JobLog.Writes(log[..n]) == JobLog.Writes(log) <==> NoWriteSince(log, n)
    decreases |log| - n
  {
    if n == |log| {
      assert log[..n] == log;
    } else {
      WritesSince(log, n + 1);
      assert log[..n + 1][..n] == log[..n];
      assert NoWriteSince(log, n) <==> !JobLog.IsWrite(log[n]) && NoWriteSince(log, n + 1);
    }
  }

  /**
   Publish-after-write meets delivery: when the broker has lost nothing and has nothing left to deliver, the newest
   version of the table has been announced to the search service if and only if a job's notification got through
   after the last write.
   */
  lemma DeliveredIffAllTold(
    lang: Language, callers: nat, latest: int, table: Table, concurrency: nat, readers: nat,
    worlds: seq<World>, actions: seq<Action>, k: nat)
    requires IsRun(lang, callers, latest, table, concurrency, readers, worlds, actions) && k <= |actions|
    requires Lossless(actions, k) && worlds[k].search.inflight == multiset{}
    ensures worlds[k].search.past.delivered == Search.Latest(worlds[k].search) <==> AllTold(worlds[k].jobs.log)
  {
    RunInvariant(lang, callers, latest, table, concurrency, readers, worlds, actions, k);
    RunSent(lang, callers, latest, table, concurrency, readers, worlds, actions, k);
    var w := worlds[k];
    var log := w.jobs.log;
    assert Search.Latest(w.search) == JobLog.Writes(log);
    if n: nat :| Told(log, n) && NoWriteSince(log, n) {
      WritesSince(log, n);
      assert log[n].version == JobLog.Writes(log[..n]);
    }
    if w.search.past.delivered == Search.Latest(w.search) {
      var n: nat :| Told(log, n) && log[n].version == w.search.past.delivered;
      WritesSince(log, n);
      assert log[n].version == JobLog.Writes(log[..n]);
    }
  }

  /**
   A write after which no notification got through is not announced: every message, delivered or on its way,
   carries an older version.
   */
  lemma UntoldWrites(
    lang: Language, callers: nat, latest: int, table: Table, concurrency: nat, readers: nat,
    worlds: seq<World>, actions: seq<Action>, k: nat, m: nat)
    requires IsRun(lang, callers, latest, table, concurrency, readers, worlds, actions) && k <= |actions|
    requires m < |worlds[k].jobs.log| && JobLog.IsWrite(worlds[k].jobs.log[m])
    requires forall n: nat :: Told(worlds[k].jobs.log, n) ==> n < m
    ensures worlds[k].search.past.delivered < Search.Latest(worlds[k].search)
    ensures forall v :: v in worlds[k].search.inflight ==> v < Search.Latest(worlds[k].search)
  {
    RunInvariant(lang, callers, latest, table, concurrency, readers, worlds, actions, k);
    RunSent(lang, callers, latest, table, concurrency, readers, worlds, actions, k);
    var w := worlds[k];
    var log := w.jobs.log;
    assert Search.Latest(w.search) == JobLog.Writes(log);
    forall n: nat | Told(log, n)
      ensures log[n].version < Search.Latest(w.search)
    {
      WritesSince(log, n);
      assert log[n].version == JobLog.Writes(log[..n]);
      assert !NoWriteSince(log, n);
    }
  }

  /**
   A cancelled update tells nobody: if it had written something, then until some later notification gets through
   the search service is told of no version that has those writes.
   */
  lemma CancelledTellsNobody(
    lang: Language, callers: nat, latest: int, table: Table, concurrency: nat, readers: nat,
    worlds: seq<World>, actions: seq<Action>, k: nat, j: nat) returns (i: nat)
    requires IsRun(lang, callers, latest, table, concurrency, readers, worlds, actions) && k <= |actions|
    requires j < |worlds[k].jobs.log| && worlds[k].jobs.log[j].Released? && worlds[k].jobs.log[j].outcome.Cancelled?
    ensures i < j && worlds[k].jobs.log[i] == Jobs.Acquired(worlds[k].jobs.log[j].c, Jobs.UpdateJob)
    ensures (exists m: nat :: i < m < j && JobLog.IsWrite(worlds[k].jobs.log[m]))
            && (forall n: nat :: Told(worlds[k].jobs.log, n) ==> n < j)
            ==> worlds[k].search.past.delivered < Search.Latest(worlds[k].search)
                && forall v :: v in worlds[k].search.inflight ==> v < Search.Latest(worlds[k].search)
  {
    RunInvariant(lang, callers, latest, table, concurrency, readers, worlds, actions, k);
    var log := worlds[k].jobs.log;
    var job;
    i, job := JobLog.ReleasedJob(log, j);
    forall n: nat | i < n < j
      ensures !Told(log, n)
    {
      CancelledBlockIsSilent(log[j].c, log[i + 1..j], n - i - 1);
      assert log[i + 1..j][n - i - 1] == log[n];
    }
    if m: nat :| i < m < j && JobLog.IsWrite(log[m]) && forall n: nat :: Told(log, n) ==> n < j {
      assert forall n: nat :: Told(log, n) ==> n < m;
      UntoldWrites(lang, callers, latest, table, concurrency, readers, worlds, actions, k, m);
    }
  }

  lemma CancelledBlockIsSilent(c: nat, events: seq<Jobs.Event>, n: nat)
    requires JobLog.Worked(c, true, events) && n < |events|
    ensures !events[n].Notified?
  {
    var init := events[..|events| - 1];
    if 0 < n < |events| - 1 {
      assert init[1..][n - 1] == events[n];
    }
  }

  lemma {:induction false} InstalledStays(
    lang: Language, callers: nat, latest: int, table: Table, concurrency: nat, readers: nat,
    worlds: seq<World>, actions: seq<Action>, i: nat, k: nat)
    requires IsRun(lang, callers, latest, table, concurrency, readers, worlds, actions) && i <= k <= |actions|
    requires SearchRuns.Undisturbed(worlds[i].search)
    requires forall j :: i <= j <= k ==> SearchRuns.Resting(worlds[j].search.initiator)
    requires forall j :: i <= j < k ==> !(actions[j].JobStep? && actions[j].a.Notify? && actions[j].a.ok)
    ensures SearchRuns.Undisturbed(worlds[k].search)
    ensures worlds[k].search.index == worlds[i].search.index && worlds[k].search.comics == worlds[i].search.comics
    ensures worlds[k].search.past == worlds[i].search.past
    decreases k
  {
    if i < k {
      InstalledStays(lang, callers, latest, table, concurrency, readers, worlds, actions, i, k - 1);
      var w, a, v := worlds[k - 1], actions[k - 1], worlds[k - 1 + 1];
      assert Step(lang, concurrency, w, a, v);
      SearchSideStep(lang, concurrency, w, a, v);
      SearchRuns.RestStays(w.search, SearchAction(w, a, v));
    }
  }

  /** Outside a swap the pair stands for the installed table, and for another only if search cannot tell them apart. */
  lemma StandsFor(s: Search.State, table: Table)
    requires Search.Untorn(s) && !s.subscriber.HalfSwapped? && !s.initiator.HalfSwapped?
    ensures Represents(s.index, s.comics, SearchRuns.Installed(s))
    ensures Represents(s.index, s.comics, table) <==> Staleness.SameToSearch(SearchRuns.Installed(s), table)
  {
    assert IsListing(s.past.rows, SearchRuns.Installed(s));
    IndexOfRepresents(s.past.rows, SearchRuns.Installed(s));
    Staleness.RepresentsAnother(s.index, s.comics, SearchRuns.Installed(s), table);
  }

  /**
   And so the index stays behind: while nobody builds, nothing is on its way and no notification gets through, the
   installed pair does not change, whatever the jobs write. It is right for the table as the jobs left it exactly
   when the search side cannot tell that table from the installed one.
   */
  lemma BehindUntilTold(
    lang: Language, callers: nat, latest: int, table: Table, concurrency: nat, readers: nat,
    worlds: seq<World>, actions: seq<Action>, i: nat, k: nat)
    requires IsRun(lang, callers, latest, table, concurrency, readers, worlds, actions) && i <= k <= |actions|
    requires SearchRuns.Undisturbed(worlds[i].search)
    requires forall j :: i <= j <= k ==> SearchRuns.Resting(worlds[j].search.initiator)
    requires forall j :: i <= j < k ==> !(actions[j].JobStep? && actions[j].a.Notify? && actions[j].a.ok)
    ensures worlds[k].search.index == worlds[i].search.index && worlds[k].search.comics == worlds[i].search.comics
    ensures worlds[k].jobs.history != []
    ensures Represents(worlds[k].search.index, worlds[k].search.comics, Jobs.Current(worlds[k].jobs))
            <==> Staleness.SameToSearch(SearchRuns.Installed(worlds[i].search), Jobs.Current(worlds[k].jobs))
  {
    InstalledStays(lang, callers, latest, table, concurrency, readers, worlds, actions, i, k);
    HistoriesAgree(lang, callers, latest, table, concurrency, readers, worlds, actions, k);
    SearchIsUntorn(lang, callers, latest, table, concurrency, readers, worlds, actions, i);
    StandsFor(worlds[i].search, Jobs.Current(worlds[k].jobs));
  }

  lemma SearchIsUntorn(
    lang: Language, callers: nat, latest: int, table: Table, concurrency: nat, readers: nat,
    worlds: seq<World>, actions: seq<Action>, k: nat)
    requires IsRun(lang, callers, latest, table, concurrency, readers, worlds, actions) && k <= |actions|
    ensures Search.Untorn(worlds[k].search)
  {
    RunInvariant(lang, callers, latest, table, concurrency, readers, worlds, actions, k);
  }

  // ----- settled -----

  /**
   The jobs have told of all their writes, the broker has nothing left to deliver, the search side is at rest, and
   the subscriber's last List succeeded without meeting the initiator waiting for the lock with an older listing.
   */
  ghost predicate Settled(w: World) {
    && AllTold(w.jobs.log) && w.search.inflight == multiset{}
    && SearchRuns.Quiescent(w.search) && !w.search.past.lastFailed && !w.search.past.outrun
  }

  /** What the search side has installed in a settled world. */
  lemma SettledIsLatest(
    lang: Language, callers: nat, latest: int, table: Table, concurrency: nat, readers: nat,
    worlds: seq<World>, actions: seq<Action>, k: nat)
    requires IsRun(lang, callers, latest, table, concurrency, readers, worlds, actions) && k <= |actions|
    requires Lossless(actions, k) && Settled(worlds[k])
    ensures var w := worlds[k];
            && w.jobs.history != []
            && w.search.past.version == Search.Latest(w.search)
            && w.search.index == IndexOf(w.search.past.rows)
            && w.search.comics == CatalogueOf(TableOf(w.search.past.rows))
            && IsListing(w.search.past.rows, Jobs.Current(w.jobs))
  {
    DeliveredIffAllTold(lang, callers, latest, table, concurrency, readers, worlds, actions, k);
    RunInvariant(lang, callers, latest, table, concurrency, readers, worlds, actions, k);
    SearchRuns.AtRest(worlds[k].search);
  }

  /**
   Once things have settled, the index stands for the table as the jobs left it, so an answer from the index is an
   answer to a scan of that table; and the services count the same: as many index keys as unique words, as many
   index entries as words.
   */
  lemma SettledInSync(
    lang: Language, callers: nat, latest: int, table: Table, concurrency: nat, readers: nat,
    worlds: seq<World>, actions: seq<Action>, k: nat)
    requires IsRun(lang, callers, latest, table, concurrency, readers, worlds, actions) && k <= |actions|
    requires Lossless(actions, k) && Settled(worlds[k])
    ensures var w := worlds[k];
            && w.jobs.history != []
            && Represents(w.search.index, w.search.comics, Jobs.Current(w.jobs))
            && (forall rows :: IsListing(rows, Jobs.Current(w.jobs)) ==>
                  |w.search.index| == CountersOf(rows).wordsUnique
                  && IndexSize(w.search.index) == CountersOf(rows).wordsTotal)
  {
    RunInvariant(lang, callers, latest, table, concurrency, readers, worlds, actions, k);
    SettledIsLatest(lang, callers, latest, table, concurrency, readers, worlds, actions, k);
    var w := worlds[k];
    var current := Jobs.Current(w.jobs);
    var installed := w.search.past.rows;
    IndexOfRepresents(installed, current);
    IndexCounters(installed, current);
    forall rows | IsListing(rows, current)
      ensures |w.search.index| == CountersOf(rows).wordsUnique
      ensures IndexSize(w.search.index) == CountersOf(rows).wordsTotal
    {
      CountersOrderFree(rows, installed, current);
    }
  }

  /** In step `h` search `r` is asked this, in step `i` it takes the read lock, and it is asked nothing else up to `k`. */
  ghost predicate AskedAndLocked(
    actions: seq<Action>, h: nat, i: nat, k: nat, r: nat, keywords: seq<string>, limit: nat)
  {
    && h < i < k <= |actions|
    && actions[h] == SearchStep(Search.Search(r, Search.Ask(keywords, limit)))
    && actions[i] == SearchStep(Search.Search(r, Search.RLock))
    && forall j :: h < j < k ==>
         !(actions[j].SearchStep? && actions[j].b.Search? && actions[j].b.r == r && actions[j].b.q.Ask?)
  }

  /** A search that takes the read lock in a settled world answers what it was asked on the table as the jobs left it. */
  lemma SettledSearch(
    lang: Language, callers: nat, latest: int, table: Table, concurrency: nat, readers: nat,
    worlds: seq<World>, actions: seq<Action>, h: nat, i: nat, k: nat, r: nat, keywords: seq<string>, limit: nat)
    requires IsRun(lang, callers, latest, table, concurrency, readers, worlds, actions)
    requires AskedAndLocked(actions, h, i, k, r, keywords, limit) && Lossless(actions, i) && Settled(worlds[i])
    requires r < |worlds[k].search.readers| && worlds[k].search.readers[r].Answered?
    ensures worlds[i].jobs.history != []
    ensures IsAnswer(Jobs.Current(worlds[i].jobs), ToSet(keywords), limit, worlds[k].search.readers[r].result)
  {
    SettledInstalls(lang, callers, latest, table, concurrency, readers, worlds, actions, i);
    SearchOnInstalled(lang, callers, latest, table, concurrency, readers, worlds, actions, h, i, k, r, keywords, limit);
  }

  lemma SettledInstalls(
    lang: Language, callers: nat, latest: int, table: Table, concurrency: nat, readers: nat,
    worlds: seq<World>, actions: seq<Action>, i: nat)
    requires IsRun(lang, callers, latest, table, concurrency, readers, worlds, actions) && i <= |actions|
    requires Lossless(actions, i) && Settled(worlds[i])
    ensures worlds[i].jobs.history != [] && SearchRuns.Installed(worlds[i].search) == Jobs.Current(worlds[i].jobs)
  {
    SettledIsLatest(lang, callers, latest, table, concurrency, readers, worlds, actions, i);
    HistoriesAgree(lang, callers, latest, table, concurrency, readers, worlds, actions, i);
  }

  /** A search answers on the table whose listing was installed when it took the lock. */
  lemma SearchOnInstalled(
    lang: Language, callers: nat, latest: int, table: Table, concurrency: nat, readers: nat,
    worlds: seq<World>, actions: seq<Action>, h: nat, i: nat, k: nat, r: nat, keywords: seq<string>, limit: nat)
    requires IsRun(lang, callers, latest, table, concurrency, readers, worlds, actions)
    requires AskedAndLocked(actions, h, i, k, r, keywords, limit)
    requires r < |worlds[k].search.readers| && worlds[k].search.readers[r].Answered?
    ensures IsAnswer(SearchRuns.Installed(worlds[i].search), ToSet(keywords), limit, worlds[k].search.readers[r].result)
  {
    SearchSideRuns(lang, callers, latest, table, concurrency, readers, worlds, actions);
    var states, acts := SearchStates(worlds), SearchActions(worlds, actions);
    assert acts[i] == Search.Search(r, Search.RLock) && acts[h] == Search.Search(r, Search.Ask(keywords, limit));
    SearchRuns.LockedAnswer(table, readers, states, acts, h, i, k, r, keywords, limit);
  }

  /**
   Every comic in the table can be found by its own words: a search that takes the read lock in a settled world,
   with room for all matches, returns a comic stored by then exactly when the query it was asked shares a keyword
   with the title or the description the comic was stored for.
   */
  lemma StoredComicsAreFound(
    lang: Language, callers: nat, latest: int, table: Table, concurrency: nat, readers: nat,
    worlds: seq<World>, actions: seq<Action>, h: nat, i: nat, k: nat, r: nat, keywords: seq<string>, limit: nat,
    query: string, id: int) returns (info: Pools.Info)
    requires !lang.wordChar(' ')
    requires IsRun(lang, callers, latest, table, concurrency, readers, worlds, actions)
    requires AskedAndLocked(actions, h, i, k, r, keywords, limit) && Lossless(actions, i) && Settled(worlds[i])
    requires r < |worlds[k].search.readers| && worlds[k].search.readers[r].Answered?
    requires ToSet(keywords) == Keywords(lang, query)
    requires worlds[i].jobs.history != [] && id in Jobs.Current(worlds[i].jobs)
    requires |Matches(Keywords(lang, query), Jobs.Current(worlds[i].jobs))| <= limit
    ensures info.id == id && Pools.RowFor(lang, info, Jobs.Current(worlds[i].jobs)[id])
    ensures Comics(id, info.url) in worlds[k].search.readers[r].result
            <==> exists word :: word in Keywords(lang, query)
                             && (word in Keywords(lang, info.title) || word in Keywords(lang, info.description))
  {
    RunInvariant(lang, callers, latest, table, concurrency, readers, worlds, actions, i);
    SettledSearch(lang, callers, latest, table, concurrency, readers, worlds, actions, h, i, k, r, keywords, limit);
    var current := Jobs.Current(worlds[i].jobs);
    info :| Pools.RowFor(lang, info, current[id]);
    FoundByOwnWords(lang, current, query, info, id, limit, worlds[k].search.readers[r].result);
  }

  lemma FoundByOwnWords(
    lang: Language, table: Table, query: string, info: Pools.Info, id: int, limit: nat, result: seq<Comics>)
    requires !lang.wordChar(' ')
    requires id in table && table[id].id == id && Pools.RowFor(lang, info, table[id])
    requires IsAnswer(table, Keywords(lang, query), limit, result)
    requires |Matches(Keywords(lang, query), table)| <= limit
    ensures Comics(id, info.url) in result
            <==> exists word :: word in Keywords(lang, query)
                             && (word in Keywords(lang, info.title) || word in Keywords(lang, info.description))
  {
    var keywords := Keywords(lang, query);
    QueryAlgebra.IndexesTitleAndDescription(lang, info.title, info.description, table[id], query);
    MatchesAt(keywords, table, id);
    AnswerLength(table, keywords, limit, result);
    AnswerMember(table, keywords, limit, result, Comics(id, info.url));
    assert id in Ids(result) <==> id in ToSet(Ids(result));
  }

  /** Every search that has returned answered what it was asked on a table some job, or the beginning, had left. */
  lemma AnswersComeFromJobs(
    lang: Language, callers: nat, latest: int, table: Table, concurrency: nat, readers: nat,
    worlds: seq<World>, actions: seq<Action>, h: nat, k: nat, r: nat, keywords: seq<string>, limit: nat)
    requires IsRun(lang, callers, latest, table, concurrency, readers, worlds, actions)
    requires SearchRuns.AskedOnce(SearchActions(worlds, actions), h, k, r, keywords, limit)
    requires r < |worlds[k].search.readers| && worlds[k].search.readers[r].Answered?
    ensures exists snapshot :: (snapshot == map[] || snapshot in worlds[k].jobs.history)
                               && IsAnswer(snapshot, ToSet(keywords), limit, worlds[k].search.readers[r].result)
  {
    SearchSideRuns(lang, callers, latest, table, concurrency, readers, worlds, actions);
    var states, acts := SearchStates(worlds), SearchActions(worlds, actions);
    var l := SearchRuns.SearchesAreAtomic(table, readers, states, acts, h, k, r, keywords, limit);
    SearchRuns.HistoryExtends(table, readers, states, acts, l, k);
    HistoriesAgree(lang, callers, latest, table, concurrency, readers, worlds, actions, k);
    var snapshot := SearchRuns.Installed(states[l]);
    assert snapshot == map[] || snapshot in states[k].history;
  }
}
