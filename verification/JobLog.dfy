/** The grammar of the job log: whole jobs one after the other, each writing before it notifies. */
module JobLog {
  import opened Jobs
  import opened Words

  /** Where the log stands. */
  datatype Phase =
    | Free
    | Started(c: nat, job: Job)
    | Working(c: nat)                      // an update that found something missing
    | Telling(c: nat)                      // an update whose pool is through, not cancelled
    | Quitting(c: nat)                     // an update whose pool is through, cancelled
    | Cleared(c: nat)                      // a drop that has truncated
    | Closing(c: nat)                      // a job that will return nil
    | Failing(c: nat, outcome: Outcome)    // a job that found the site or the store down
    | Broken

  function Follow(phase: Phase, e: Event): Phase {
    match phase
    case Free => if e.Acquired? then Started(e.c, e.job) else Broken
    case Started(c, job) =>
      if e.c != c then Broken
      else if e.Planned? && job.UpdateJob? then (if e.missing == [] then Closing(c) else Working(c))
      else if e.Truncated? && job.DropJob? then Cleared(c)
      else if e.SourceDown? && job.UpdateJob? then Failing(c, SourceFailed)
      else if e.StoreDown? then Failing(c, StoreFailed)
      else Broken
    case Working(c) =>
      if e.c != c then Broken
      else if e.Wrote? then Working(c)
      else if e.Drained? then (if e.cancelled then Quitting(c) else Telling(c))
      else Broken
    case Telling(c) => if e.c == c && e.Notified? then Closing(c) else Broken
    case Cleared(c) => if e.c == c && e.Notified? then Closing(c) else Broken
    case Quitting(c) => if e.c == c && e.Released? && e.outcome.Cancelled? then Free else Broken
    case Closing(c) => if e.c == c && e.Released? && e.outcome.Nil? then Free else Broken
    case Failing(c, outcome) => if e == Released(c, outcome) then Free else Broken
    case Broken => Broken
  }

  function PhaseOf(log: seq<Event>): Phase {
    if log == [] then Free else Follow(PhaseOf(log[..|log| - 1]), log[|log| - 1])
  }

  /** The job at work is this caller's. */
  predicate AtWork(phase: Phase, c: nat) {
    !phase.Free? && !phase.Broken? && phase.c == c
  }

  /** The phases a caller can be in at each of its places while it owns the flag. */
  ghost predicate Agrees(caller: Caller, c: nat, phase: Phase) {
    match caller
    case Away => !AtWork(phase, c)
    case Asking(_) => !AtWork(phase, c)
    case Returned(_) => !AtWork(phase, c)
    case ReadingLastID => phase == Started(c, UpdateJob)
    case ReadingIDs(_) => phase == Started(c, UpdateJob)
    case Pooling(_, _, _) => phase == Working(c)
    case Truncating => phase == Started(c, DropJob)
    case Notifying => phase == Telling(c) || phase == Cleared(c)
    case Releasing(outcome) =>
      match outcome
      case Nil => phase == Closing(c)
      case AlreadyExists => false
      case SourceFailed => phase == Failing(c, SourceFailed)
      case StoreFailed => phase == Failing(c, StoreFailed)
      case Cancelled => phase == Quitting(c)
  }

  /** The log is in order, and every caller stands where the log says. */
  ghost predicate Logged(s: State) {
    var phase := PhaseOf(s.log);
    && !phase.Broken?
    && (s.running <==> !phase.Free?)
    && forall c :: 0 <= c < |s.callers| ==> Agrees(s.callers[c], c, phase)
  }

  /** A step logs at most one event, at the end. */
  lemma LogGrows(lang: Language, s: State, a: Action, concurrency: nat)
    requires Enabled(lang, s, a)
    ensures var t := Next(lang, s, a, concurrency);
            t.log == s.log || (t.log != [] && t.log == s.log + [t.log[|t.log| - 1]])
  {
  }

  /** Between the two phases only caller `c` was at work. */
  ghost predicate MovedBy(c: nat, phase: Phase, after: Phase) {
    phase == after || ((phase.Free? || AtWork(phase, c)) && (after.Free? || AtWork(after, c)))
  }

  /** What a step leaves in the log, seen from the phase before it. */
  function PhaseAfter(lang: Language, s: State, a: Action, concurrency: nat): Phase
    requires Enabled(lang, s, a)
  {
    var t := Next(lang, s, a, concurrency);
    if |t.log| == |s.log| then PhaseOf(s.log) else Follow(PhaseOf(s.log), t.log[|t.log| - 1])
  }

  lemma PhaseAfterStep(lang: Language, s: State, a: Action, concurrency: nat)
    requires Enabled(lang, s, a)
    ensures PhaseOf(Next(lang, s, a, concurrency).log) == PhaseAfter(lang, s, a, concurrency)
  {
  }

  /** The caller that moved is where the log now says. */
  lemma MoverAgrees(lang: Language, s: State, a: Action, concurrency: nat)
    requires Enabled(lang, s, a) && !a.Appear?
    requires !PhaseOf(s.log).Broken? && (s.running <==> !PhaseOf(s.log).Free?)
    requires Agrees(s.callers[a.c], a.c, PhaseOf(s.log))
    ensures var t, phase := Next(lang, s, a, concurrency), PhaseAfter(lang, s, a, concurrency);
            && !phase.Broken? && (t.running <==> !phase.Free?)
            && Agrees(t.callers[a.c], a.c, phase)
            && MovedBy(a.c, PhaseOf(s.log), phase)
  {
  }

  lemma OthersStay(lang: Language, s: State, a: Action, concurrency: nat)
    requires Enabled(lang, s, a)
    ensures |Next(lang, s, a, concurrency).callers| == |s.callers|
    ensures forall d :: 0 <= d < |s.callers| && !By(a, d) ==>
              Next(lang, s, a, concurrency).callers[d] == s.callers[d]
    ensures a.Appear? ==> Next(lang, s, a, concurrency).running == s.running
  {
  }

  /** One caller moved and agrees with the log; so do all. */
  lemma AllAgree(s: State, t: State, c: nat)
    requires Logged(s) && c < |s.callers| && |t.callers| == |s.callers|
    requires forall d :: 0 <= d < |s.callers| && d != c ==> t.callers[d] == s.callers[d]
    requires !PhaseOf(t.log).Broken? && (t.running <==> !PhaseOf(t.log).Free?)
    requires Agrees(t.callers[c], c, PhaseOf(t.log)) && MovedBy(c, PhaseOf(s.log), PhaseOf(t.log))
    ensures Logged(t)
  {
  }

  lemma StepLogged(lang: Language, s: State, a: Action, concurrency: nat)
    requires Logged(s) && Enabled(lang, s, a)
    ensures Logged(Next(lang, s, a, concurrency))
  {
    OthersStay(lang, s, a, concurrency);
    PhaseAfterStep(lang, s, a, concurrency);
    if !a.Appear? {
      assert Agrees(s.callers[a.c], a.c, PhaseOf(s.log));
      MoverAgrees(lang, s, a, concurrency);
      AllAgree(s, Next(lang, s, a, concurrency), a.c);
    }
  }

  // ----- what an ordered log looks like -----

  ghost predicate AllWrites(c: nat, events: seq<Event>) {
    forall k :: 0 <= k < |events| ==> events[k].Wrote? && events[k].c == c
  }

  /** An update's plan and its writes, nothing else. */
  ghost predicate PlanAndWrites(c: nat, events: seq<Event>) {
    && events != [] && events[0].Planned? && events[0].c == c && events[0].missing != []
    && AllWrites(c, events[1..])
  }

  /** An update's plan, its writes, and the look at the context after them. */
  ghost predicate Worked(c: nat, cancelled: bool, events: seq<Event>) {
    && |events| >= 2 && events[|events| - 1] == Drained(c, cancelled)
    && PlanAndWrites(c, events[..|events| - 1])
  }

  /** A last event that is the job's one attempt to notify. */
  ghost predicate EndsInNotify(c: nat, events: seq<Event>) {
    events != [] && events[|events| - 1].Notified? && events[|events| - 1].c == c
  }

  /** Everything a job of this kind and outcome does between acquiring and releasing the flag. */
  ghost predicate JobBlock(c: nat, job: Job, outcome: Outcome, events: seq<Event>) {
    match outcome
    case Nil =>
      if job.DropJob? then |events| == 2 && events[0] == Truncated(c) && EndsInNotify(c, events)
      else events == [Planned(c, [])]
           || (EndsInNotify(c, events) && Worked(c, false, events[..|events| - 1]))
    case AlreadyExists => false
    case SourceFailed => job.UpdateJob? && events == [SourceDown(c)]
    case StoreFailed => events == [StoreDown(c)]
    case Cancelled => job.UpdateJob? && Worked(c, true, events)
  }

  /** What the job at work has done so far. */
  ghost predicate OpenBlock(phase: Phase, c: nat, job: Job, events: seq<Event>) {
    match phase
    case Free => false
    case Started(d, j) => c == d && job == j && events == []
    case Working(d) => c == d && job.UpdateJob? && PlanAndWrites(c, events)
    case Telling(d) => c == d && job.UpdateJob? && Worked(c, false, events)
    case Quitting(d) => c == d && JobBlock(c, job, Cancelled, events)
    case Cleared(d) => c == d && job.DropJob? && events == [Truncated(c)]
    case Closing(d) => c == d && JobBlock(c, job, Nil, events)
    case Failing(d, outcome) => c == d && JobBlock(c, job, outcome, events)
    case Broken => false
  }

  lemma OpenStep(phase: Phase, c: nat, job: Job, before: seq<Event>, e: Event)
    requires OpenBlock(phase, c, job, before)
    requires !Follow(phase, e).Broken? && !Follow(phase, e).Free?
    ensures OpenBlock(Follow(phase, e), c, job, before + [e])
  {
    var events := before + [e];
    assert events[..|events| - 1] == before;
    if phase.Working? {
      assert events[1..] == before[1..] + [e];
    }
  }

  lemma CloseStep(phase: Phase, c: nat, job: Job, before: seq<Event>, e: Event)
    requires OpenBlock(phase, c, job, before)
    requires Follow(phase, e).Free?
    ensures e.Released? && e.c == c && JobBlock(c, job, e.outcome, before)
  {
  }

  /** While a job is at work, the log ends in its acquisition and what it has done since. */
  lemma {:induction false} OpenJob(log: seq<Event>) returns (i: nat, job: Job)
    requires !PhaseOf(log).Broken? && !PhaseOf(log).Free?
    ensures i < |log| && log[i] == Acquired(PhaseOf(log).c, job)
    ensures OpenBlock(PhaseOf(log), PhaseOf(log).c, job, log[i + 1..])
  {
    var init, e := log[..|log| - 1], log[|log| - 1];
    if PhaseOf(init).Free? {
      i, job := |log| - 1, e.job;
    } else {
      i, job := OpenJob(init);
      OpenStep(PhaseOf(init), PhaseOf(init).c, job, init[i + 1..], e);
      assert log[i + 1..] == init[i + 1..] + [e];
    }
  }

  /**
   Every release in the log closes a job that began earlier, ran alone, and did exactly what its kind and
   outcome allow: a nil update wrote everything before its single notification or found nothing to do, a nil
   drop truncated and then notified, and a job that failed wrote nothing or was cancelled before notifying.
   */
  lemma {:induction false} ReleasedJob(log: seq<Event>, j: nat) returns (i: nat, job: Job)
    requires !PhaseOf(log).Broken?
    requires j < |log| && log[j].Released?
    ensures i < j && log[i] == Acquired(log[j].c, job)
    ensures JobBlock(log[j].c, job, log[j].outcome, log[i + 1..j])
  {
    var init := log[..|log| - 1];
    if j == |log| - 1 {
      i, job := OpenJob(init);
      CloseStep(PhaseOf(init), PhaseOf(init).c, job, init[i + 1..], log[j]);
      assert log[i + 1..j] == init[i + 1..];
    } else {
      i, job := ReleasedJob(init, j);
      assert log[i + 1..j] == init[i + 1..j];
    }
  }

  /** In a job that returned nil, a write means a notification, and every write comes before it. */
  lemma WritesBeforeNotify(c: nat, job: Job, events: seq<Event>, k: nat)
    requires JobBlock(c, job, Nil, events) && k < |events|
    requires IsWrite(events[k])
    ensures events[k].c == c
    ensures k < |events| - 1 && events[|events| - 1].Notified?
    ensures forall m :: 0 <= m < |events| - 1 ==> !events[m].Notified?
  {
    if job.UpdateJob? && events != [Planned(c, [])] {
      var init := events[..|events| - 2];
      assert init == events[..|events| - 1][..|events| - 2];
      assert forall m :: 1 <= m < |init| ==> events[m] == init[1..][m - 1];
      assert events[|events| - 2] == events[..|events| - 1][|events| - 2];
    }
  }

  // ----- versions -----

  predicate IsWrite(e: Event) {
    e.Wrote? || e.Truncated?
  }

  /** How many writes the log records. */
  function Writes(log: seq<Event>): nat {
    if log == [] then 0 else Writes(log[..|log| - 1]) + (if IsWrite(log[|log| - 1]) then 1 else 0)
  }

  /** Each notification carries the number of writes made before it. */
  ghost predicate NumberedLog(log: seq<Event>) {
    forall i :: 0 <= i < |log| && log[i].Notified? ==> log[i].version == Writes(log[..i])
  }

  lemma NumberedAppend(log: seq<Event>, e: Event)
    requires NumberedLog(log)
    requires e.Notified? ==> e.version == Writes(log)
    ensures NumberedLog(log + [e])
    ensures Writes(log + [e]) == Writes(log) + (if IsWrite(e) then 1 else 0)
  {
    var longer := log + [e];
    assert longer[..|log|] == log;
    forall i | 0 <= i < |longer| && longer[i].Notified?
      ensures longer[i].version == Writes(longer[..i])
    {
      if i < |log| {
        assert longer[i] == log[i] && longer[..i] == log[..i];
      }
    }
  }

  /** The log records every write, and numbers every notification. */
  ghost predicate Numbered(s: State) {
    |s.history| == 1 + Writes(s.log) && NumberedLog(s.log)
  }

  /** A step writes at most once, and logs it if it does. */
  lemma WritesAreLogged(lang: Language, s: State, a: Action, concurrency: nat)
    requires Enabled(lang, s, a)
    ensures var t := Next(lang, s, a, concurrency);
            if t.log == s.log then |t.history| == |s.history|
            else && t.log != []
                 && var e := t.log[|t.log| - 1];
                    && |t.history| == |s.history| + (if IsWrite(e) then 1 else 0)
                    && (e.Notified? ==> e.version == |s.history| - 1)
  {
  }

  lemma StepNumbered(lang: Language, s: State, a: Action, concurrency: nat)
    requires Numbered(s) && Enabled(lang, s, a)
    ensures Numbered(Next(lang, s, a, concurrency))
  {
    var t := Next(lang, s, a, concurrency);
    LogGrows(lang, s, a, concurrency);
    WritesAreLogged(lang, s, a, concurrency);
    if t.log != s.log {
      NumberedAppend(s.log, t.log[|t.log| - 1]);
    }
  }

  lemma {:induction false} WritesMonotone(log: seq<Event>, i: nat, j: nat)
    requires i <= j <= |log|
    ensures Writes(log[..i]) <= Writes(log[..j])
    decreases j
  {
    if i < j {
      WritesMonotone(log, i, j - 1);
      assert log[..j][..j - 1] == log[..j - 1];
    }
  }

  /** A notification covers every write made before it: its version counts them all, and only them. */
  lemma NotificationCoversWrites(s: State, i: nat, j: nat)
    requires Numbered(s) && i < |s.log| && j < |s.log|
    requires IsWrite(s.log[i]) && s.log[j].Notified?
    ensures i < j <==> Writes(s.log[..i + 1]) <= s.log[j].version
  {
    assert s.log[..i + 1][..i] == s.log[..i];
    if i < j {
      WritesMonotone(s.log, i + 1, j);
    } else {
      WritesMonotone(s.log, j, i);
    }
  }
}
