/** Which of its own steps each caller's place, each event of the log and each result stands for. */
module JobSteps {
  import opened Lists
  import opened ComicsTable
  import opened MissingIds
  import opened Words
  import opened Jobs
  import opened JobLog
  import opened JobRuns
  import Pools = WorkerPool
  import PoolRuns = WorkerPoolRuns

  // ----- a caller's own steps -----

  /** The steps caller `c` has taken of the first `k`, from its last call on. */
  ghost function Mine(actions: seq<Action>, c: nat, k: nat): (m: seq<nat>)
    requires k <= |actions|
    ensures forall j :: 0 <= j < |m| ==> m[j] < k && By(actions[m[j]], c)
    ensures forall i, j :: 0 <= i < j < |m| ==> m[i] < m[j]
  {
    if k == 0 then []
    else if !By(actions[k - 1], c) then Mine(actions, c, k - 1)
    else if actions[k - 1].Call? then [k - 1]
    else Mine(actions, c, k - 1) + [k - 1]
  }

  /** The caller called for this job, and its compare-and-swap found the flag free. */
  ghost predicate Began(states: seq<State>, actions: seq<Action>, c: nat, job: Job, m: seq<nat>) {
    && |m| >= 2 && (forall j :: 0 <= j < |m| ==> m[j] < |actions|) && |states| == |actions| + 1
    && actions[m[0]] == Call(c, job) && actions[m[1]] == Swap(c) && !states[m[1]].running
  }

  /** An update has read the site's last id. */
  ghost predicate ReadLast(states: seq<State>, actions: seq<Action>, c: nat, m: seq<nat>) {
    |m| >= 3 && Began(states, actions, c, UpdateJob, m) && actions[m[2]] == LastID(c, true)
  }

  /** An update has read the ids as well. */
  ghost predicate ReadBoth(states: seq<State>, actions: seq<Action>, c: nat, m: seq<nat>) {
    && |m| >= 4 && ReadLast(states, actions, c, m) && actions[m[3]] == IDs(c, true)
    && states[m[3]].history != []
  }

  /** What it then finds missing: the ids up to the last one it read that the table it read does not have. */
  ghost function Gap(states: seq<State>, actions: seq<Action>, c: nat, m: seq<nat>): seq<int>
    requires ReadBoth(states, actions, c, m)
  {
    Missing(states[m[2]].latest, Current(states[m[3]]).Keys)
  }

  /** It is working off a gap; the steps from the fifth to the `n`th are the pool's. */
  ghost predicate Pooled(states: seq<State>, actions: seq<Action>, c: nat, m: seq<nat>, n: nat) {
    && 4 <= n <= |m| && ReadBoth(states, actions, c, m) && Gap(states, actions, c, m) != []
    && forall j :: 4 <= j < n ==> actions[m[j]].PoolStep?
  }

  /** The context was cancelled among these steps. */
  ghost predicate SawCancel(actions: seq<Action>, m: seq<nat>) {
    exists j :: 0 <= j < |m| && m[j] < |actions| && actions[m[j]].PoolStep? && actions[m[j]].a.Cancel?
  }

  /** The pool is through, and the context was looked at. */
  ghost predicate Checked(states: seq<State>, actions: seq<Action>, c: nat, m: seq<nat>) {
    m != [] && Pooled(states, actions, c, m, |m| - 1) && actions[m[|m| - 1]] == Check(c)
  }

  ghost predicate Dropped(states: seq<State>, actions: seq<Action>, c: nat, m: seq<nat>) {
    |m| == 3 && Began(states, actions, c, DropJob, m) && actions[m[2]] == Truncate(c, true)
  }

  /** The job is about to notify: the pool of an update is through and was not cancelled, or a drop has truncated. */
  ghost predicate HasNews(states: seq<State>, actions: seq<Action>, c: nat, m: seq<nat>) {
    (Checked(states, actions, c, m) && !SawCancel(actions, m)) || Dropped(states, actions, c, m)
  }

  /** These steps end a job in this way. */
  ghost predicate EndsIn(states: seq<State>, actions: seq<Action>, c: nat, m: seq<nat>, outcome: Outcome) {
    match outcome
    case Nil =>
      || (|m| == 4 && ReadBoth(states, actions, c, m) && Gap(states, actions, c, m) == [])
      || (m != [] && m[|m| - 1] < |actions| && actions[m[|m| - 1]].Notify?
          && HasNews(states, actions, c, m[..|m| - 1]))
    case AlreadyExists => false
    case SourceFailed => |m| == 3 && Began(states, actions, c, UpdateJob, m) && actions[m[2]] == LastID(c, false)
    case StoreFailed =>
      || (|m| == 4 && ReadLast(states, actions, c, m) && actions[m[3]] == IDs(c, false))
      || (|m| == 3 && Began(states, actions, c, DropJob, m) && actions[m[2]] == Truncate(c, false))
    case Cancelled => Checked(states, actions, c, m) && SawCancel(actions, m)
  }

  /** Where a caller stands is where its own steps have brought it. */
  ghost predicate Stands(states: seq<State>, actions: seq<Action>, c: nat, caller: Caller, m: seq<nat>) {
    match caller
    case Away => m == []
    case Asking(job) => |m| == 1 && m[0] < |actions| && actions[m[0]] == Call(c, job)
    case ReadingLastID => |m| == 2 && Began(states, actions, c, UpdateJob, m)
    case ReadingIDs(lastID) => |m| == 3 && ReadLast(states, actions, c, m) && lastID == states[m[2]].latest
    case Pooling(lastID, base, pool) =>
      && Pooled(states, actions, c, m, |m|) && lastID == states[m[2]].latest && base == Current(states[m[3]])
      && pool.ids == Gap(states, actions, c, m) && (pool.cancelled <==> SawCancel(actions, m))
    case Truncating => |m| == 2 && Began(states, actions, c, DropJob, m)
    case Notifying => HasNews(states, actions, c, m)
    case Releasing(outcome) => EndsIn(states, actions, c, m, outcome)
    case Returned(outcome) =>
      || (outcome.AlreadyExists? && Rejected(states, actions, c, m))
      || (m != [] && m[|m| - 1] < |actions| && actions[m[|m| - 1]] == Release(c)
          && EndsIn(states, actions, c, m[..|m| - 1], outcome))
  }

  /** The compare-and-swap found the flag set. */
  ghost predicate Rejected(states: seq<State>, actions: seq<Action>, c: nat, m: seq<nat>) {
    && |m| == 2 && m[0] < |actions| && m[1] < |actions| && m[1] < |states|
    && actions[m[0]].Call? && actions[m[1]] == Swap(c) && states[m[1]].running
  }

  /** One step more leaves what the earlier ones say. */
  lemma BeganLonger(states: seq<State>, actions: seq<Action>, c: nat, job: Job, m: seq<nat>, k: nat)
    requires k < |actions| && Began(states, actions, c, job, m)
    ensures Began(states, actions, c, job, m + [k])
  {
    assert forall j :: 0 <= j < |m| ==> (m + [k])[j] == m[j];
  }

  lemma ReadLonger(states: seq<State>, actions: seq<Action>, c: nat, m: seq<nat>, k: nat)
    requires k < |actions| && ReadLast(states, actions, c, m)
    ensures ReadLast(states, actions, c, m + [k]) && (m + [k])[2] == m[2]
  {
    BeganLonger(states, actions, c, UpdateJob, m, k);
  }

  lemma PooledLonger(states: seq<State>, actions: seq<Action>, c: nat, m: seq<nat>, n: nat, k: nat)
    requires k < |actions| && Pooled(states, actions, c, m, n)
    ensures Pooled(states, actions, c, m + [k], n)
    ensures Gap(states, actions, c, m + [k]) == Gap(states, actions, c, m)
    ensures (m + [k])[2] == m[2] && (m + [k])[3] == m[3]
  {
    ReadLonger(states, actions, c, m, k);
    assert forall j :: 0 <= j < |m| ==> (m + [k])[j] == m[j];
  }

  lemma CancelSeen(actions: seq<Action>, m: seq<nat>, k: nat)
    requires k < |actions|
    ensures SawCancel(actions, m + [k])
            <==> SawCancel(actions, m) || (actions[k].PoolStep? && actions[k].a.Cancel?)
  {
    var n := m + [k];
    assert n[|m|] == k;
    assert forall j :: 0 <= j < |m| ==> n[j] == m[j];
  }

  /** The step of a caller that is reading or at its compare-and-swap, or drops. */
  lemma EarlyStepStands(
    lang: Language, concurrency: nat, states: seq<State>, actions: seq<Action>, k: nat, c: nat, m: seq<nat>)
    requires |states| == |actions| + 1 && k < |actions| && By(actions[k], c)
    requires Enabled(lang, states[k], actions[k]) && states[k + 1] == Next(lang, states[k], actions[k], concurrency)
    requires c < |states[k].callers| && (forall j :: 0 <= j < |m| ==> m[j] < |actions|)
    requires Stands(states, actions, c, states[k].callers[c], m)
    requires actions[k].Call? || actions[k].Swap? || actions[k].LastID? || actions[k].Truncate?
    ensures Stands(states, actions, c, states[k + 1].callers[c], if actions[k].Call? then [k] else m + [k])
  {
    if actions[k].LastID? {
      BeganLonger(states, actions, c, UpdateJob, m, k);
    } else if actions[k].Truncate? {
      BeganLonger(states, actions, c, DropJob, m, k);
    }
  }

  lemma PlanStands(
    lang: Language, concurrency: nat, states: seq<State>, actions: seq<Action>, k: nat, c: nat, m: seq<nat>)
    requires |states| == |actions| + 1 && k < |actions| && actions[k].IDs? && actions[k].c == c
    requires Enabled(lang, states[k], actions[k]) && states[k + 1] == Next(lang, states[k], actions[k], concurrency)
    requires forall j :: 0 <= j < |m| ==> m[j] < |actions|
    requires Stands(states, actions, c, states[k].callers[c], m)
    ensures Stands(states, actions, c, states[k + 1].callers[c], m + [k])
  {
    var n := m + [k];
    ReadLonger(states, actions, c, m, k);
    CancelSeen(actions, m, k);
    assert n[3] == k;
    assert !SawCancel(actions, m) by {
      assert forall j :: 0 <= j < |m| ==> !actions[m[j]].PoolStep?;
    }
    if actions[k].ok {
      assert ReadBoth(states, actions, c, n);
    }
  }

  lemma PoolStands(
    lang: Language, concurrency: nat, states: seq<State>, actions: seq<Action>, k: nat, c: nat, m: seq<nat>)
    requires |states| == |actions| + 1 && k < |actions| && actions[k].PoolStep? && actions[k].c == c
    requires Enabled(lang, states[k], actions[k]) && states[k + 1] == Next(lang, states[k], actions[k], concurrency)
    requires forall j :: 0 <= j < |m| ==> m[j] < |actions|
    requires Stands(states, actions, c, states[k].callers[c], m)
    ensures Stands(states, actions, c, states[k + 1].callers[c], m + [k])
  {
    var n := m + [k];
    var b := actions[k].a;
    var before, after := states[k].callers[c].pool, states[k + 1].callers[c].pool;
    PooledLonger(states, actions, c, m, |m|, k);
    CancelSeen(actions, m, k);
    assert n[|m|] == k;
    assert forall j :: 0 <= j < |m| ==> n[j] == m[j];
    assert after == Pools.Next(before, b);
    assert after.ids == before.ids && (after.cancelled <==> before.cancelled || b.Cancel?);
  }

  /** Where the last steps of a job take its caller. */
  lemma LateStep(lang: Language, s: State, a: Action, concurrency: nat)
    requires Enabled(lang, s, a) && (a.Check? || a.Notify? || a.Release?)
    ensures var caller, after := s.callers[a.c], Next(lang, s, a, concurrency).callers[a.c];
            match a
            case Check(_) =>
              caller.Pooling? && after == if caller.pool.cancelled then Releasing(Cancelled) else Notifying
            case Notify(_, _) => caller.Notifying? && after == Releasing(Nil)
            case Release(_) => caller.Releasing? && after == Returned(caller.outcome)
  {
  }

  lemma CheckEnds(states: seq<State>, actions: seq<Action>, k: nat, c: nat, m: seq<nat>, pool: Pools.Pool)
    requires k < |actions| && actions[k] == Check(c) && Pooled(states, actions, c, m, |m|)
    requires pool.cancelled <==> SawCancel(actions, m)
    ensures Stands(states, actions, c, if pool.cancelled then Releasing(Cancelled) else Notifying, m + [k])
  {
    var n := m + [k];
    assert n[|n| - 1] == k;
    PooledLonger(states, actions, c, m, |m|, k);
    CancelSeen(actions, m, k);
    assert Checked(states, actions, c, n);
  }

  lemma NotifyEnds(states: seq<State>, actions: seq<Action>, k: nat, c: nat, m: seq<nat>)
    requires k < |actions| && actions[k].Notify? && Stands(states, actions, c, Notifying, m)
    ensures Stands(states, actions, c, Releasing(Nil), m + [k])
  {
    var n := m + [k];
    assert n[..|n| - 1] == m && n[|n| - 1] == k;
    assert HasNews(states, actions, c, n[..|n| - 1]);
  }

  lemma ReleaseEnds(states: seq<State>, actions: seq<Action>, k: nat, c: nat, m: seq<nat>, outcome: Outcome)
    requires k < |actions| && actions[k] == Release(c) && EndsIn(states, actions, c, m, outcome)
    ensures Stands(states, actions, c, Returned(outcome), m + [k])
  {
    var n := m + [k];
    assert n[..|n| - 1] == m && n[|n| - 1] == k;
  }

  lemma LateStepStands(
    lang: Language, concurrency: nat, states: seq<State>, actions: seq<Action>, k: nat, c: nat, m: seq<nat>)
    requires |states| == |actions| + 1 && k < |actions| && By(actions[k], c)
    requires Enabled(lang, states[k], actions[k]) && states[k + 1] == Next(lang, states[k], actions[k], concurrency)
    requires c < |states[k].callers| && (forall j :: 0 <= j < |m| ==> m[j] < |actions|)
    requires Stands(states, actions, c, states[k].callers[c], m)
    requires actions[k].Check? || actions[k].Notify? || actions[k].Release?
    ensures Stands(states, actions, c, states[k + 1].callers[c], m + [k])
  {
    LateStep(lang, states[k], actions[k], concurrency);
    match actions[k]
    case Check(_) => CheckEnds(states, actions, k, c, m, states[k].callers[c].pool);
    case Notify(_, _) => NotifyEnds(states, actions, k, c, m);
    case Release(_) => ReleaseEnds(states, actions, k, c, m, states[k].callers[c].outcome);
  }

  /** The caller's own step takes it where its steps say. */
  lemma OwnStepStands(
    lang: Language, concurrency: nat, states: seq<State>, actions: seq<Action>, k: nat, c: nat, m: seq<nat>)
    requires |states| == |actions| + 1 && k < |actions| && By(actions[k], c)
    requires Enabled(lang, states[k], actions[k]) && states[k + 1] == Next(lang, states[k], actions[k], concurrency)
    requires c < |states[k].callers| && (forall j :: 0 <= j < |m| ==> m[j] < |actions|)
    requires Stands(states, actions, c, states[k].callers[c], m)
    ensures Stands(states, actions, c, states[k + 1].callers[c], if actions[k].Call? then [k] else m + [k])
  {
    if actions[k].IDs? {
      PlanStands(lang, concurrency, states, actions, k, c, m);
    } else if actions[k].PoolStep? {
      PoolStands(lang, concurrency, states, actions, k, c, m);
    } else if actions[k].Check? || actions[k].Notify? || actions[k].Release? {
      LateStepStands(lang, concurrency, states, actions, k, c, m);
    } else {
      EarlyStepStands(lang, concurrency, states, actions, k, c, m);
    }
  }

  lemma OthersKeepStanding(lang: Language, s: State, a: Action, concurrency: nat, c: nat)
    requires Enabled(lang, s, a) && !By(a, c) && c < |s.callers|
    ensures c < |Next(lang, s, a, concurrency).callers|
    ensures Next(lang, s, a, concurrency).callers[c] == s.callers[c]
  {
    OthersStay(lang, s, a, concurrency);
  }

  lemma RunStep(
    lang: Language, callers: nat, latest: int, table: Table, concurrency: nat,
    states: seq<State>, actions: seq<Action>, k: nat)
    requires IsService(lang, callers, latest, table, concurrency, states, actions) && k < |actions|
    ensures Enabled(lang, states[k], actions[k]) && states[k + 1] == Next(lang, states[k], actions[k], concurrency)
  {
  }

  ghost predicate StandsAt(states: seq<State>, actions: seq<Action>, c: nat, k: nat)
    requires k <= |actions| && |states| == |actions| + 1
  {
    c < |states[k].callers| && Stands(states, actions, c, states[k].callers[c], Mine(actions, c, k))
  }

  lemma RunStepStands(
    lang: Language, callers: nat, latest: int, table: Table, concurrency: nat,
    states: seq<State>, actions: seq<Action>, k: nat, c: nat)
    requires IsService(lang, callers, latest, table, concurrency, states, actions) && k < |actions|
    requires StandsAt(states, actions, c, k)
    ensures StandsAt(states, actions, c, k + 1)
  {
    RunStep(lang, callers, latest, table, concurrency, states, actions, k);
    if By(actions[k], c) {
      OthersStay(lang, states[k], actions[k], concurrency);
      OwnStepStands(lang, concurrency, states, actions, k, c, Mine(actions, c, k));
    } else {
      OthersKeepStanding(lang, states[k], actions[k], concurrency, c);
    }
  }

  lemma {:induction false} StandsOn(states: seq<State>, actions: seq<Action>, c: nat, k: nat)
    requires k <= |actions| && |states| == |actions| + 1 && StandsAt(states, actions, c, 0)
    requires forall j: nat :: j < k && StandsAt(states, actions, c, j) ==> StandsAt(states, actions, c, j + 1)
    ensures StandsAt(states, actions, c, k)
  {
    if k > 0 {
      StandsOn(states, actions, c, k - 1);
      assert StandsAt(states, actions, c, k - 1 + 1);
    }
  }

  /** In every state of every run every caller stands where its own steps have brought it. */
  lemma StandsInRun(
    lang: Language, callers: nat, latest: int, table: Table, concurrency: nat,
    states: seq<State>, actions: seq<Action>, k: nat, c: nat)
    requires IsService(lang, callers, latest, table, concurrency, states, actions) && k <= |actions| && c < callers
    ensures StandsAt(states, actions, c, k)
  {
    forall j: nat | j < k && StandsAt(states, actions, c, j)
      ensures StandsAt(states, actions, c, j + 1)
    {
      RunStepStands(lang, callers, latest, table, concurrency, states, actions, j, c);
    }
    StandsOn(states, actions, c, k);
  }

  // ----- results -----

  /** One of the steps is this one. */
  ghost predicate Took(actions: seq<Action>, m: seq<nat>, a: Action) {
    exists j :: 0 <= j < |m| && m[j] < |actions| && actions[m[j]] == a
  }

  /** One of the steps is an attempt to notify. */
  ghost predicate TriedToNotify(actions: seq<Action>, m: seq<nat>) {
    exists j :: 0 <= j < |m| && m[j] < |actions| && actions[m[j]].Notify?
  }

  /** The job had something to tell: it was a drop, or an update that found something missing. */
  ghost predicate HadNews(states: seq<State>, actions: seq<Action>, c: nat, m: seq<nat>) {
    || Began(states, actions, c, DropJob, m)
    || (ReadBoth(states, actions, c, m) && Gap(states, actions, c, m) != [])
  }

  /** The result and the steps say the same. */
  ghost predicate Decided(states: seq<State>, actions: seq<Action>, c: nat, m: seq<nat>, outcome: Outcome) {
    && (outcome.AlreadyExists? <==> Rejected(states, actions, c, m))
    && (outcome.SourceFailed? <==> Took(actions, m, LastID(c, false)))
    && (outcome.StoreFailed? <==> Took(actions, m, IDs(c, false)) || Took(actions, m, Truncate(c, false)))
    && (outcome.Cancelled? <==> SawCancel(actions, m))
    && (TriedToNotify(actions, m) <==> outcome.Nil? && HadNews(states, actions, c, m))
  }

  lemma EndMeans(states: seq<State>, actions: seq<Action>, c: nat, m: seq<nat>, outcome: Outcome)
    requires |states| == |actions| + 1 && EndsIn(states, actions, c, m, outcome)
    ensures Decided(states, actions, c, m, outcome)
  {
    ShapeOfEnd(states, actions, c, m, outcome);
    if outcome.SourceFailed? {
      assert actions[m[2]] == LastID(c, false);
    } else if outcome.StoreFailed? {
      assert actions[m[|m| - 1]] == IDs(c, false) || actions[m[|m| - 1]] == Truncate(c, false);
    }
    if TriedToNotify(actions, m) {
      assert outcome.Nil?;
    }
  }

  /** The kinds of the steps of a job that has ended, one by one. */
  lemma ShapeOfEnd(states: seq<State>, actions: seq<Action>, c: nat, m: seq<nat>, outcome: Outcome)
    requires |states| == |actions| + 1 && EndsIn(states, actions, c, m, outcome)
    ensures forall j :: 0 <= j < |m| ==> m[j] < |actions|
    ensures |m| >= 3 && actions[m[0]].Call? && actions[m[1]] == Swap(c)
    ensures forall j :: 0 <= j < |m| ==>
              && (actions[m[j]].LastID? && !actions[m[j]].ok ==> outcome.SourceFailed?)
              && (actions[m[j]].IDs? && !actions[m[j]].ok ==> outcome.StoreFailed?)
              && (actions[m[j]].Truncate? && !actions[m[j]].ok ==> outcome.StoreFailed?)
              && (actions[m[j]].PoolStep? && actions[m[j]].a.Cancel? ==> outcome.Cancelled?)
              && (actions[m[j]].Notify? ==> outcome.Nil? && j == |m| - 1 && HadNews(states, actions, c, m))
    ensures outcome.Nil? && HadNews(states, actions, c, m) ==> actions[m[|m| - 1]].Notify?
  {
  }

  /**
   What a call returns is decided by its own steps: AlreadyExists iff its compare-and-swap found the flag set, the
   errors iff the call for them failed, Cancelled iff the context was cancelled while its pool was at work, and nil
   otherwise. It tried to notify iff it was a drop that went through, or an update that found something missing and
   was not cancelled.
   */
  lemma OutcomeExplained(
    lang: Language, callers: nat, latest: int, table: Table, concurrency: nat,
    states: seq<State>, actions: seq<Action>, k: nat, c: nat)
    requires IsService(lang, callers, latest, table, concurrency, states, actions) && k <= |actions| && c < callers
    requires c < |states[k].callers| && states[k].callers[c].Returned?
    ensures Decided(states, actions, c, Mine(actions, c, k), states[k].callers[c].outcome)
  {
    StandsInRun(lang, callers, latest, table, concurrency, states, actions, k, c);
    ReturnedMeans(states, actions, c, Mine(actions, c, k), states[k].callers[c].outcome);
  }

  lemma ReturnedMeans(states: seq<State>, actions: seq<Action>, c: nat, m: seq<nat>, outcome: Outcome)
    requires |states| == |actions| + 1 && Stands(states, actions, c, Returned(outcome), m)
    ensures Decided(states, actions, c, m, outcome)
  {
    if outcome.AlreadyExists? {
      RejectedMeans(states, actions, c, m);
    } else {
      var ended, k := m[..|m| - 1], m[|m| - 1];
      EndMeans(states, actions, c, ended, outcome);
      ShapeOfEnd(states, actions, c, ended, outcome);
      ReleaseAddsNothing(states, actions, c, ended, k);
      assert m == ended + [k];
    }
  }

  lemma RejectedMeans(states: seq<State>, actions: seq<Action>, c: nat, m: seq<nat>)
    requires |states| == |actions| + 1 && Rejected(states, actions, c, m)
    ensures !SawCancel(actions, m) && !TriedToNotify(actions, m)
    ensures !Took(actions, m, LastID(c, false)) && !Took(actions, m, IDs(c, false))
    ensures !Took(actions, m, Truncate(c, false))
  {
  }

  lemma ReleaseAddsNothing(states: seq<State>, actions: seq<Action>, c: nat, m: seq<nat>, k: nat)
    requires |states| == |actions| + 1 && k < |actions| && actions[k] == Release(c)
    requires |m| >= 2 && forall j :: 0 <= j < |m| ==> m[j] < |actions|
    ensures forall a :: a != Release(c) ==> (Took(actions, m + [k], a) <==> Took(actions, m, a))
    ensures SawCancel(actions, m + [k]) <==> SawCancel(actions, m)
    ensures TriedToNotify(actions, m + [k]) <==> TriedToNotify(actions, m)
    ensures HadNews(states, actions, c, m + [k]) <==> HadNews(states, actions, c, m)
    ensures !Rejected(states, actions, c, m + [k])
  {
    var n := m + [k];
    assert n[|m|] == k && forall j :: 0 <= j < |m| ==> n[j] == m[j];
  }

  // ----- the log -----

  /** What the event logged in step `j` says happened in it. */
  ghost predicate EventExplained(states: seq<State>, actions: seq<Action>, j: nat, e: Event)
    requires j < |actions| && |states| == |actions| + 1
  {
    match e
    case Acquired(c, job) =>
      && actions[j] == Swap(c) && !states[j].running
      && var m := Mine(actions, c, j); |m| == 1 && actions[m[0]] == Call(c, job)
    case Planned(c, missing) =>
      && actions[j] == IDs(c, true) && states[j].history != []
      && var m := Mine(actions, c, j);
         && |m| == 3 && ReadLast(states, actions, c, m) && Increasing(missing)
         && forall id :: id in missing <==> 1 <= id <= states[m[2]].latest && id !in Current(states[j])
    case SourceDown(c) => actions[j] == LastID(c, false)
    case StoreDown(c) => actions[j] == IDs(c, false) || actions[j] == Truncate(c, false)
    case Wrote(c, id) =>
      && actions[j].PoolStep? && actions[j].c == c && actions[j].a.AddOk?
      && c < |states[j].callers| && states[j].callers[c].Pooling?
      && var workers := states[j].callers[c].pool.workers;
         actions[j].a.w < |workers| && workers[actions[j].a.w].Adding? && workers[actions[j].a.w].id == id
    case Drained(c, cancelled) => actions[j] == Check(c) && (cancelled <==> SawCancel(actions, Mine(actions, c, j)))
    case Truncated(c) => actions[j] == Truncate(c, true)
    case Notified(c, ok, version) => actions[j] == Notify(c, ok) && version == |states[j].history| - 1
    case Released(c, outcome) =>
      && actions[j] == Release(c) && EndsIn(states, actions, c, Mine(actions, c, j), outcome)
      && c < |states[j + 1].callers| && states[j + 1].callers[c] == Returned(outcome)
  }

  /** The last event was logged in the last step. */
  lemma StepExplained(
    lang: Language, callers: nat, latest: int, table: Table, concurrency: nat,
    states: seq<State>, actions: seq<Action>, j: nat)
    requires IsService(lang, callers, latest, table, concurrency, states, actions) && j < |actions|
    requires states[j + 1].log != states[j].log
    ensures var log := states[j + 1].log;
            log != [] && log == states[j].log + [log[|log| - 1]]
            && EventExplained(states, actions, j, log[|log| - 1])
  {
    RunStep(lang, callers, latest, table, concurrency, states, actions, j);
    LogGrows(lang, states[j], actions[j], concurrency);
    CallersStay(lang, callers, latest, table, concurrency, states, actions, j);
    assert !actions[j].Appear?;
    StandsInRun(lang, callers, latest, table, concurrency, states, actions, j, actions[j].c);
    EventOfStep(lang, concurrency, states, actions, j, Mine(actions, actions[j].c, j));
  }

  lemma {:induction false} CallersStay(
    lang: Language, callers: nat, latest: int, table: Table, concurrency: nat,
    states: seq<State>, actions: seq<Action>, k: nat)
    requires IsService(lang, callers, latest, table, concurrency, states, actions) && k <= |actions|
    ensures |states[k].callers| == callers
  {
    if k > 0 {
      CallersStay(lang, callers, latest, table, concurrency, states, actions, k - 1);
      RunStep(lang, callers, latest, table, concurrency, states, actions, k - 1);
      OthersStay(lang, states[k - 1], actions[k - 1], concurrency);
      assert states[k] == states[k - 1 + 1];
    }
  }

  lemma EarlyEvent(
    lang: Language, concurrency: nat, states: seq<State>, actions: seq<Action>, j: nat, m: seq<nat>)
    requires |states| == |actions| + 1 && j < |actions| && !actions[j].Appear?
    requires Enabled(lang, states[j], actions[j]) && states[j + 1] == Next(lang, states[j], actions[j], concurrency)
    requires m == Mine(actions, actions[j].c, j)
    requires Stands(states, actions, actions[j].c, states[j].callers[actions[j].c], m)
    requires states[j + 1].log != states[j].log
    requires actions[j].Swap? || actions[j].LastID? || actions[j].Truncate?
    ensures states[j + 1].log != []
    ensures EventExplained(states, actions, j, states[j + 1].log[|states[j + 1].log| - 1])
  {
  }

  lemma PlanEvent(
    lang: Language, concurrency: nat, states: seq<State>, actions: seq<Action>, j: nat, m: seq<nat>)
    requires |states| == |actions| + 1 && j < |actions| && !actions[j].Appear?
    requires Enabled(lang, states[j], actions[j]) && states[j + 1] == Next(lang, states[j], actions[j], concurrency)
    requires m == Mine(actions, actions[j].c, j)
    requires Stands(states, actions, actions[j].c, states[j].callers[actions[j].c], m)
    requires states[j + 1].log != states[j].log
    requires actions[j].IDs?
    ensures states[j + 1].log != []
    ensures EventExplained(states, actions, j, states[j + 1].log[|states[j + 1].log| - 1])
  {
    MissingExact(states[j].callers[actions[j].c].lastID, Current(states[j]).Keys);
  }

  lemma WriteEvent(
    lang: Language, concurrency: nat, states: seq<State>, actions: seq<Action>, j: nat, m: seq<nat>)
    requires |states| == |actions| + 1 && j < |actions| && !actions[j].Appear?
    requires Enabled(lang, states[j], actions[j]) && states[j + 1] == Next(lang, states[j], actions[j], concurrency)
    requires m == Mine(actions, actions[j].c, j)
    requires Stands(states, actions, actions[j].c, states[j].callers[actions[j].c], m)
    requires states[j + 1].log != states[j].log
    requires actions[j].PoolStep?
    ensures states[j + 1].log != []
    ensures EventExplained(states, actions, j, states[j + 1].log[|states[j + 1].log| - 1])
  {
    assert actions[j].a.AddOk?;
  }

  lemma LateEvent(
    lang: Language, concurrency: nat, states: seq<State>, actions: seq<Action>, j: nat, m: seq<nat>)
    requires |states| == |actions| + 1 && j < |actions| && !actions[j].Appear?
    requires Enabled(lang, states[j], actions[j]) && states[j + 1] == Next(lang, states[j], actions[j], concurrency)
    requires m == Mine(actions, actions[j].c, j)
    requires Stands(states, actions, actions[j].c, states[j].callers[actions[j].c], m)
    requires states[j + 1].log != states[j].log
    requires actions[j].Check? || actions[j].Notify? || actions[j].Release?
    ensures states[j + 1].log != []
    ensures EventExplained(states, actions, j, states[j + 1].log[|states[j + 1].log| - 1])
  {
    if actions[j].Check? {
      assert Stands(states, actions, actions[j].c, states[j].callers[actions[j].c], m);
    }
  }

  lemma EventOfStep(
    lang: Language, concurrency: nat, states: seq<State>, actions: seq<Action>, j: nat, m: seq<nat>)
    requires |states| == |actions| + 1 && j < |actions| && !actions[j].Appear?
    requires Enabled(lang, states[j], actions[j]) && states[j + 1] == Next(lang, states[j], actions[j], concurrency)
    requires m == Mine(actions, actions[j].c, j)
    requires Stands(states, actions, actions[j].c, states[j].callers[actions[j].c], m)
    requires states[j + 1].log != states[j].log
    ensures states[j + 1].log != []
    ensures EventExplained(states, actions, j, states[j + 1].log[|states[j + 1].log| - 1])
  {
    if actions[j].IDs? {
      PlanEvent(lang, concurrency, states, actions, j, m);
    } else if actions[j].Check? || actions[j].Notify? || actions[j].Release? {
      LateEvent(lang, concurrency, states, actions, j, m);
    } else if actions[j].PoolStep? {
      WriteEvent(lang, concurrency, states, actions, j, m);
    } else if !actions[j].Call? {
      EarlyEvent(lang, concurrency, states, actions, j, m);
    }
  }

  /** Every event in the log was logged by one step, and says what happened in it. */
  lemma {:induction false} LogExplained(
    lang: Language, callers: nat, latest: int, table: Table, concurrency: nat,
    states: seq<State>, actions: seq<Action>, k: nat, n: nat) returns (j: nat)
    requires IsService(lang, callers, latest, table, concurrency, states, actions) && k <= |actions|
    requires n < |states[k].log|
    ensures j < k && states[j].log == states[k].log[..n] && states[j + 1].log == states[k].log[..n + 1]
    ensures EventExplained(states, actions, j, states[k].log[n])
    decreases k
  {
    RunStep(lang, callers, latest, table, concurrency, states, actions, k - 1);
    LogGrows(lang, states[k - 1], actions[k - 1], concurrency);
    assert states[k] == states[k - 1 + 1];
    if n < |states[k - 1].log| {
      j := LogExplained(lang, callers, latest, table, concurrency, states, actions, k - 1, n);
      assert states[k].log[..n] == states[k - 1].log[..n] && states[k].log[..n + 1] == states[k - 1].log[..n + 1];
    } else {
      j := k - 1;
      StepExplained(lang, callers, latest, table, concurrency, states, actions, k - 1);
      assert states[k].log[..n] == states[k - 1].log && states[k].log[..n + 1] == states[k].log;
    }
  }

  /**
   Publish after write, in every run: each job that has released the flag did its part of the log in order, and what
   it released the flag with is what its own steps ended in.
   */
  lemma PublishAfterWrite(
    lang: Language, callers: nat, latest: int, table: Table, concurrency: nat,
    states: seq<State>, actions: seq<Action>, k: nat, j: nat) returns (i: nat, job: Job, e: nat)
    requires IsService(lang, callers, latest, table, concurrency, states, actions) && k <= |actions|
    requires j < |states[k].log| && states[k].log[j].Released?
    ensures i < j && states[k].log[i] == Acquired(states[k].log[j].c, job)
    ensures JobBlock(states[k].log[j].c, job, states[k].log[j].outcome, states[k].log[i + 1..j])
    ensures e < k && actions[e] == Release(states[k].log[j].c) && states[e].log == states[k].log[..j]
    ensures var c, outcome := states[k].log[j].c, states[k].log[j].outcome;
            EndsIn(states, actions, c, Mine(actions, c, e), outcome)
            && Decided(states, actions, c, Mine(actions, c, e), outcome)
  {
    i, job := ReleasedInRun(lang, callers, latest, table, concurrency, states, actions, k, j);
    e := LogExplained(lang, callers, latest, table, concurrency, states, actions, k, j);
    var c, outcome := states[k].log[j].c, states[k].log[j].outcome;
    EndMeans(states, actions, c, Mine(actions, c, e), outcome);
  }

  /** After its last own step a caller takes none. */
  lemma {:induction false} MineIsLast(actions: seq<Action>, c: nat, k: nat)
    requires k <= |actions|
    ensures forall j :: (if Mine(actions, c, k) == [] then 0 else Mine(actions, c, k)[|Mine(actions, c, k)| - 1] + 1) <= j < k
                        ==> !By(actions[j], c)
  {
    if k > 0 && !By(actions[k - 1], c) {
      MineIsLast(actions, c, k - 1);
    }
  }

  lemma ReturnsByRelease(
    lang: Language, callers: nat, latest: int, table: Table, concurrency: nat,
    states: seq<State>, actions: seq<Action>, k: nat, c: nat) returns (e: nat)
    requires IsService(lang, callers, latest, table, concurrency, states, actions) && k <= |actions| && c < callers
    requires c < |states[k].callers| && states[k].callers[c].Returned? && !states[k].callers[c].outcome.AlreadyExists?
    ensures e < k && actions[e] == Release(c) && forall j :: e < j < k ==> !By(actions[j], c)
  {
    StandsInRun(lang, callers, latest, table, concurrency, states, actions, k, c);
    e := LastIsRelease(states, actions, k, c);
  }

  lemma LastIsRelease(states: seq<State>, actions: seq<Action>, k: nat, c: nat) returns (e: nat)
    requires k <= |actions| && |states| == |actions| + 1 && StandsAt(states, actions, c, k)
    requires states[k].callers[c].Returned? && !states[k].callers[c].outcome.AlreadyExists?
    ensures e < k && actions[e] == Release(c) && forall j :: e < j < k ==> !By(actions[j], c)
  {
    MineIsLast(actions, c, k);
    var m := Mine(actions, c, k);
    e := m[|m| - 1];
  }

  /** A caller that was not rejected returned what its last release in the log says. */
  lemma ReturnedAsReleased(
    lang: Language, callers: nat, latest: int, table: Table, concurrency: nat,
    states: seq<State>, actions: seq<Action>, k: nat, c: nat) returns (n: nat)
    requires IsService(lang, callers, latest, table, concurrency, states, actions) && k <= |actions| && c < callers
    requires c < |states[k].callers| && states[k].callers[c].Returned? && !states[k].callers[c].outcome.AlreadyExists?
    ensures n < |states[k].log| && states[k].log[n] == Released(c, states[k].callers[c].outcome)
    ensures forall i :: n < i < |states[k].log| ==> !(states[k].log[i].Released? && states[k].log[i].c == c)
  {
    var e := ReturnsByRelease(lang, callers, latest, table, concurrency, states, actions, k, c);
    n := |states[e].log|;
    ReleaseLogs(lang, callers, latest, table, concurrency, states, actions, e, c);
    LogExtends(lang, callers, latest, table, concurrency, states, actions, e + 1, k);
    ReturnedStays(lang, callers, latest, table, concurrency, states, actions, e + 1, k, c);
    forall i | n < i < |states[k].log|
      ensures !(states[k].log[i].Released? && states[k].log[i].c == c)
    {
      NoLaterRelease(lang, callers, latest, table, concurrency, states, actions, e, k, c, i);
    }
  }

  /** A release logged later is a later step. */
  lemma NoLaterRelease(
    lang: Language, callers: nat, latest: int, table: Table, concurrency: nat,
    states: seq<State>, actions: seq<Action>, e: nat, k: nat, c: nat, i: nat)
    requires IsService(lang, callers, latest, table, concurrency, states, actions) && e < k <= |actions|
    requires |states[e].log| < i < |states[k].log| && forall j :: e < j < k ==> !By(actions[j], c)
    ensures !(states[k].log[i].Released? && states[k].log[i].c == c)
  {
    var j := LogExplained(lang, callers, latest, table, concurrency, states, actions, k, i);
    assert |states[j].log| == i;
    if j <= e {
      LogExtends(lang, callers, latest, table, concurrency, states, actions, j, e);
    }
  }

  lemma ReleaseLogs(
    lang: Language, callers: nat, latest: int, table: Table, concurrency: nat,
    states: seq<State>, actions: seq<Action>, e: nat, c: nat)
    requires IsService(lang, callers, latest, table, concurrency, states, actions) && e < |actions|
    requires actions[e] == Release(c)
    ensures c < |states[e + 1].callers| && states[e + 1].callers[c].Returned?
    ensures states[e + 1].log == states[e].log + [Released(c, states[e + 1].callers[c].outcome)]
  {
    RunStep(lang, callers, latest, table, concurrency, states, actions, e);
  }

  lemma {:induction false} LogExtends(
    lang: Language, callers: nat, latest: int, table: Table, concurrency: nat,
    states: seq<State>, actions: seq<Action>, i: nat, k: nat)
    requires IsService(lang, callers, latest, table, concurrency, states, actions) && i <= k <= |actions|
    ensures states[i].log <= states[k].log
    decreases k
  {
    if i < k {
      LogExtends(lang, callers, latest, table, concurrency, states, actions, i, k - 1);
      RunStep(lang, callers, latest, table, concurrency, states, actions, k - 1);
      LogGrows(lang, states[k - 1], actions[k - 1], concurrency);
      assert states[k] == states[k - 1 + 1];
    }
  }

  ghost predicate StaysPut(s: State, t: State, c: nat) {
    c < |s.callers| == |t.callers| && t.callers[c] == s.callers[c]
  }

  lemma {:induction false} StaysThrough(states: seq<State>, i: nat, k: nat, c: nat)
    requires i <= k < |states| && c < |states[i].callers|
    requires forall j: nat :: i <= j < k ==> StaysPut(states[j], states[j + 1], c)
    ensures c < |states[k].callers| && states[k].callers[c] == states[i].callers[c]
    decreases k
  {
    if i < k {
      StaysThrough(states, i, k - 1, c);
      assert StaysPut(states[k - 1], states[k - 1 + 1], c);
    }
  }

  lemma StepStaysPut(
    lang: Language, callers: nat, latest: int, table: Table, concurrency: nat,
    states: seq<State>, actions: seq<Action>, j: nat, c: nat)
    requires IsService(lang, callers, latest, table, concurrency, states, actions) && j < |actions|
    requires c < callers && !By(actions[j], c)
    ensures StaysPut(states[j], states[j + 1], c)
  {
    CallersStay(lang, callers, latest, table, concurrency, states, actions, j);
    CallersStay(lang, callers, latest, table, concurrency, states, actions, j + 1);
    RunStep(lang, callers, latest, table, concurrency, states, actions, j);
    OthersKeepStanding(lang, states[j], actions[j], concurrency, c);
  }

  lemma ReturnedStays(
    lang: Language, callers: nat, latest: int, table: Table, concurrency: nat,
    states: seq<State>, actions: seq<Action>, i: nat, k: nat, c: nat)
    requires IsService(lang, callers, latest, table, concurrency, states, actions) && i <= k <= |actions|
    requires c < callers && forall j :: i <= j < k ==> !By(actions[j], c)
    ensures c < |states[i].callers| && c < |states[k].callers| && states[k].callers[c] == states[i].callers[c]
  {
    CallersStay(lang, callers, latest, table, concurrency, states, actions, i);
    forall j: nat | i <= j < k
      ensures StaysPut(states[j], states[j + 1], c)
    {
      StepStaysPut(lang, callers, latest, table, concurrency, states, actions, j, c);
    }
    StaysThrough(states, i, k, c);
  }

  // ----- the pool -----

  /** The pool's actions among caller `c`'s steps i..k. */
  ghost function PoolActions(actions: seq<Action>, c: nat, i: nat, k: nat): seq<Pools.Action>
    requires i <= k <= |actions|
    decreases k
  {
    if i == k then []
    else
      var rest := PoolActions(actions, c, i, k - 1);
      if By(actions[k - 1], c) && actions[k - 1].PoolStep? then rest + [actions[k - 1].a] else rest
  }

  lemma PoolRunGoesOn(
    lang: Language, ids: seq<int>, concurrency: nat, base: Table,
    states: seq<PoolRuns.State>, actions: seq<Pools.Action>, b: Pools.Action, t: PoolRuns.State)
    requires PoolRuns.IsRun(lang, ids, concurrency, base, states, actions)
    requires PoolRuns.Step(lang, states[|actions|], b, t)
    ensures PoolRuns.IsRun(lang, ids, concurrency, base, states + [t], actions + [b])
  {
  }

  /** Who is in the pool stage either came there in this step, or moved the pool, or did not move. */
  lemma PoolStepCases(lang: Language, s: State, a: Action, concurrency: nat, c: nat)
    requires Exclusive(s) && Enabled(lang, s, a) && c < |s.callers|
    requires Next(lang, s, a, concurrency).callers[c].Pooling?
    ensures var t := Next(lang, s, a, concurrency);
            t.history != [] &&
            if By(a, c) && a.IDs? then
              a.ok && s.callers[c].ReadingIDs?
              && t.callers[c] == Pooling(s.callers[c].lastID, Current(s), t.callers[c].pool)
              && t.callers[c].pool == Pools.Start(t.callers[c].pool.ids, concurrency) && Current(t) == Current(s)
            else if By(a, c) then
              a.PoolStep? && s.callers[c].Pooling?
              && t.callers[c] == s.callers[c].(pool := Pools.Next(s.callers[c].pool, a.a))
              && Current(t) == Pools.NextTable(s.callers[c].pool, Current(s), a.a)
            else t.callers[c] == s.callers[c] && t.history == s.history
  {
    OthersStay(lang, s, a, concurrency);
    if !By(a, c) && Next(lang, s, a, concurrency).history != s.history {
      WritesUnderTheFlag(lang, s, a, concurrency);
      var d :| By(a, d) && IsOwner(s, d);
      assert IsOwner(s, c);
      assert false;
    }
  }

  /** The pool's own steps since step `i` are a run of the pool by itself, through these states. */
  ghost predicate RanAlone(
    lang: Language, concurrency: nat, states: seq<State>, actions: seq<Action>, c: nat, i: nat, k: nat,
    alone: seq<PoolRuns.State>)
    requires k <= |actions| && |states| == |actions| + 1
  {
    && i < k && actions[i] == IDs(c, true) && states[i].history != [] && states[k].history != []
    && c < |states[k].callers| && states[k].callers[c].Pooling?
    && var Pooling(lastID, base, pool) := states[k].callers[c];
       var mine := PoolActions(actions, c, i + 1, k);
       && base == Current(states[i])
       && PoolRuns.IsRun(lang, pool.ids, concurrency, base, alone, mine)
       && alone[|mine|] == PoolRuns.State(pool, Current(states[k]))
  }

  lemma AloneFromStart(
    lang: Language, concurrency: nat, states: seq<State>, actions: seq<Action>, c: nat, k: nat)
    returns (alone: seq<PoolRuns.State>)
    requires |states| == |actions| + 1 && k < |actions| && By(actions[k], c) && actions[k].IDs?
    requires Exclusive(states[k]) && c < |states[k].callers|
    requires Enabled(lang, states[k], actions[k]) && states[k + 1] == Next(lang, states[k], actions[k], concurrency)
    requires states[k + 1].callers[c].Pooling?
    ensures RanAlone(lang, concurrency, states, actions, c, k, k + 1, alone)
  {
    PoolStepCases(lang, states[k], actions[k], concurrency, c);
    alone := [PoolRuns.State(states[k + 1].callers[c].pool, Current(states[k + 1]))];
  }

  lemma AloneOn(
    lang: Language, concurrency: nat, states: seq<State>, actions: seq<Action>, c: nat, i: nat, k: nat,
    before: seq<PoolRuns.State>) returns (alone: seq<PoolRuns.State>)
    requires |states| == |actions| + 1 && k < |actions| && !(By(actions[k], c) && actions[k].IDs?)
    requires Exclusive(states[k]) && c < |states[k].callers|
    requires Enabled(lang, states[k], actions[k]) && states[k + 1] == Next(lang, states[k], actions[k], concurrency)
    requires c < |states[k + 1].callers| && states[k + 1].callers[c].Pooling?
    requires RanAlone(lang, concurrency, states, actions, c, i, k, before)
    ensures RanAlone(lang, concurrency, states, actions, c, i, k + 1, alone)
  {
    PoolStepCases(lang, states[k], actions[k], concurrency, c);
    alone := before;
    if By(actions[k], c) {
      var pool, table, b := states[k].callers[c].pool, Current(states[k]), actions[k].a;
      var t := PoolRuns.State(Pools.Next(pool, b), Pools.NextTable(pool, table, b));
      PoolRunGoesOn(lang, pool.ids, concurrency, states[k].callers[c].base, before, PoolActions(actions, c, i + 1, k), b, t);
      alone := before + [t];
    }
  }

  /**
   Among any other callers an update's pool runs as if it were alone: its own steps since it read the ids are a run of
   the pool, on the table it then read, that ends in the pool and the table as they are. So all that is proved of
   such runs holds of it.
   */
  lemma {:induction false} PoolRunsAlone(
    lang: Language, callers: nat, latest: int, table: Table, concurrency: nat,
    states: seq<State>, actions: seq<Action>, k: nat, c: nat) returns (i: nat, alone: seq<PoolRuns.State>)
    requires IsService(lang, callers, latest, table, concurrency, states, actions) && k <= |actions|
    requires c < |states[k].callers| && states[k].callers[c].Pooling?
    ensures RanAlone(lang, concurrency, states, actions, c, i, k, alone)
    decreases k
  {
    CallersStay(lang, callers, latest, table, concurrency, states, actions, k);
    CallersStay(lang, callers, latest, table, concurrency, states, actions, k - 1);
    RunStep(lang, callers, latest, table, concurrency, states, actions, k - 1);
    RunExclusive(lang, callers, latest, table, concurrency, states, actions, k - 1);
    assert states[k] == states[k - 1 + 1];
    if By(actions[k - 1], c) && actions[k - 1].IDs? {
      i := k - 1;
      alone := AloneFromStart(lang, concurrency, states, actions, c, k - 1);
    } else {
      PoolStepCases(lang, states[k - 1], actions[k - 1], concurrency, c);
      i, alone := PoolRunsAlone(lang, callers, latest, table, concurrency, states, actions, k - 1, c);
      alone := AloneOn(lang, concurrency, states, actions, c, i, k - 1, alone);
    }
  }

  lemma RunExclusive(
    lang: Language, callers: nat, latest: int, table: Table, concurrency: nat,
    states: seq<State>, actions: seq<Action>, k: nat)
    requires IsService(lang, callers, latest, table, concurrency, states, actions) && k <= |actions|
    ensures Exclusive(states[k])
  {
    RunInvariant(lang, callers, latest, table, concurrency, states, actions, k);
  }

  /** So the fate of each id of its gap is what the calls for it came to. */
  lemma UpdateExplained(
    lang: Language, callers: nat, latest: int, table: Table, concurrency: nat,
    states: seq<State>, actions: seq<Action>, k: nat, c: nat) returns (i: nat, alone: seq<PoolRuns.State>)
    requires IsService(lang, callers, latest, table, concurrency, states, actions) && k <= |actions|
    requires c < |states[k].callers| && states[k].callers[c].Pooling?
    ensures i < k && states[k].history != []
    ensures var mine := PoolActions(actions, c, i + 1, k);
            |alone| == |mine| + 1 && alone[|mine|] == PoolRuns.State(states[k].callers[c].pool, Current(states[k]))
            && PoolRuns.Explained(alone, mine, |mine|)
  {
    i, alone := PoolRunsAlone(lang, callers, latest, table, concurrency, states, actions, k, c);
    RunInvariant(lang, callers, latest, table, concurrency, states, actions, k);
    var caller := states[k].callers[c];
    assert PoolSound(lang, caller, Current(states[k]), states[k].latest, concurrency);
    var mine := PoolActions(actions, c, i + 1, k);
    assert PoolRuns.Fresh(caller.pool.ids, caller.base);
    PoolRuns.RunExplains(lang, caller.pool.ids, concurrency, caller.base, alone, mine, |mine|);
  }
}
