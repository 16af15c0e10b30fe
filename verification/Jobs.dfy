/**
 Any number of callers of Update and Drop, interleaved step by step, over the one `running` flag. The history
 of the table and a log of what happened are kept beside the state; no step looks at them.
 */
module Jobs {
  import opened ComicsTable
  import opened MissingIds
  import opened Words
  import Pools = WorkerPool

  datatype Job = UpdateJob | DropJob

  /** What a call returns: nil, or one of its errors. */
  datatype Outcome = Nil | AlreadyExists | SourceFailed | StoreFailed | Cancelled

  /** Where a caller stands; it is about to do what the constructor is named after. */
  datatype Caller =
    | Away
    | Asking(job: Job)                                             // the compare-and-swap
    | ReadingLastID
    | ReadingIDs(lastID: int)
    | Pooling(lastID: int, base: Table, pool: Pools.Pool)          // runWorkers and the check after it
    | Truncating
    | Notifying
    | Releasing(outcome: Outcome)                                  // the deferred store of false
    | Returned(outcome: Outcome)

  datatype Event =
    | Acquired(c: nat, job: Job)
    | Planned(c: nat, missing: seq<int>)
    | SourceDown(c: nat)
    | StoreDown(c: nat)
    | Wrote(c: nat, id: int)
    | Drained(c: nat, cancelled: bool)           // runWorkers returned, and the context was looked at
    | Truncated(c: nat)
    | Notified(c: nat, ok: bool, version: nat)   // with the number of writes made before it
    | Released(c: nat, outcome: Outcome)

  datatype State = State(
    running: bool,
    latest: int,             // the last id the comics site has, by now
    callers: seq<Caller>,
    history: seq<Table>,     // the table after each write so far, the current one last
    log: seq<Event>)

  datatype Action =
    | Call(c: nat, job: Job)
    | Swap(c: nat)
    | LastID(c: nat, ok: bool)
    | IDs(c: nat, ok: bool)
    | PoolStep(c: nat, a: Pools.Action)
    | Check(c: nat)
    | Truncate(c: nat, ok: bool)
    | Notify(c: nat, ok: bool)
    | Release(c: nat)
    | Appear(latest: int)    // the comics site publishes

  function Current(s: State): Table
    requires s.history != []
  {
    s.history[|s.history| - 1]
  }

  function Initial(callers: nat, latest: int, table: Table): State {
    State(false, latest, seq(callers, i => Away), [table], [])
  }

  ghost predicate Enabled(lang: Language, s: State, a: Action) {
    && s.history != []
    && match a
       case Call(c, _) => c < |s.callers| && (s.callers[c].Away? || s.callers[c].Returned?)
       case Swap(c) => c < |s.callers| && s.callers[c].Asking?
       case LastID(c, _) => c < |s.callers| && s.callers[c].ReadingLastID?
       case IDs(c, _) => c < |s.callers| && s.callers[c].ReadingIDs?
       case PoolStep(c, b) =>
         && c < |s.callers| && s.callers[c].Pooling?
         && Pools.Enabled(lang, s.callers[c].pool, Current(s), b) && Pools.InPlace(s.callers[c].pool, b)
       case Check(c) => c < |s.callers| && s.callers[c].Pooling? && Pools.Finished(s.callers[c].pool)
       case Truncate(c, _) => c < |s.callers| && s.callers[c].Truncating?
       case Notify(c, _) => c < |s.callers| && s.callers[c].Notifying?
       case Release(c) => c < |s.callers| && s.callers[c].Releasing?
       case Appear(latest) => s.latest <= latest
  }

  function Put(s: State, c: nat, caller: Caller): State
    requires c < |s.callers|
  {
    s.(callers := s.callers[c := caller])
  }

  function Write(s: State, table: Table): State {
    s.(history := s.history + [table])
  }

  function Log(s: State, e: Event): State {
    s.(log := s.log + [e])
  }

  function Next(lang: Language, s: State, a: Action, concurrency: nat): State
    requires Enabled(lang, s, a)
  {
    match a
    case Call(c, job) => Put(s, c, Asking(job))
    case Swap(c) =>
      var job := s.callers[c].job;
      if s.running then Put(s, c, Returned(AlreadyExists))
      else Log(Put(s, c, if job.UpdateJob? then ReadingLastID else Truncating).(running := true), Acquired(c, job))
    case LastID(c, ok) =>
      if ok then Put(s, c, ReadingIDs(s.latest)) else Log(Put(s, c, Releasing(SourceFailed)), SourceDown(c))
    // a context that is cancelled already is cancelled by the pool's first step
    case IDs(c, ok) =>
      if !ok then Log(Put(s, c, Releasing(StoreFailed)), StoreDown(c))
      else
        var lastID := s.callers[c].lastID;
        var missing := Missing(lastID, Current(s).Keys);
        Log(Put(s, c, if missing == [] then Releasing(Nil)
                      else Pooling(lastID, Current(s), Pools.Start(missing, concurrency))),
            Planned(c, missing))
    case PoolStep(c, b) =>
      var caller := s.callers[c];
      var stepped := Put(s, c, caller.(pool := Pools.Next(caller.pool, b)));
      if b.AddOk?
      then Log(Write(stepped, Pools.NextTable(caller.pool, Current(s), b)), Wrote(c, caller.pool.workers[b.w].id))
      else stepped
    case Check(c) =>
      var cancelled := s.callers[c].pool.cancelled;
      Log(Put(s, c, if cancelled then Releasing(Cancelled) else Notifying), Drained(c, cancelled))
    case Truncate(c, ok) =>
      if ok then Log(Write(Put(s, c, Notifying), map[]), Truncated(c))
      else Log(Put(s, c, Releasing(StoreFailed)), StoreDown(c))
    case Notify(c, ok) => Log(Put(s, c, Releasing(Nil)), Notified(c, ok, |s.history| - 1))
    case Release(c) =>
      var outcome := s.callers[c].outcome;
      Log(Put(s, c, Returned(outcome)).(running := false), Released(c, outcome))
    case Appear(latest) => s.(latest := latest)
  }

  ghost predicate IsRun(lang: Language, concurrency: nat, states: seq<State>, actions: seq<Action>) {
    && |states| == |actions| + 1
    && forall i :: 0 <= i < |actions| ==>
         Enabled(lang, states[i], actions[i]) && states[i + 1] == Next(lang, states[i], actions[i], concurrency)
  }

  // ----- one owner at a time -----

  /** The caller is past its compare-and-swap and has not yet released the flag. */
  predicate Owning(caller: Caller) {
    !caller.Away? && !caller.Asking? && !caller.Returned?
  }

  ghost predicate IsOwner(s: State, c: nat) {
    c < |s.callers| && Owning(s.callers[c])
  }

  /** The flag is set exactly when some caller owns it, and never do two. */
  ghost predicate Exclusive(s: State) {
    && (s.running <==> exists c :: IsOwner(s, c))
    && (forall c, d :: IsOwner(s, c) && IsOwner(s, d) ==> c == d)
  }

  /** The caller an action belongs to. */
  ghost predicate By(a: Action, c: nat) {
    !a.Appear? && a.c == c
  }

  lemma StepExclusive(lang: Language, s: State, a: Action, concurrency: nat)
    requires Exclusive(s) && Enabled(lang, s, a)
    ensures Exclusive(Next(lang, s, a, concurrency))
  {
    var t := Next(lang, s, a, concurrency);
    if a.Appear? {
      assert forall d: nat :: IsOwner(t, d) <==> IsOwner(s, d);
    } else {
      assert t.callers == s.callers[a.c := t.callers[a.c]];
      OneMoved(s, t, a.c);
    }
  }

  /** One caller moved: it kept its part, or it took the free flag, or it gave it back. */
  lemma OneMoved(s: State, t: State, c: nat)
    requires Exclusive(s) && c < |s.callers| == |t.callers| && t.callers == s.callers[c := t.callers[c]]
    requires Owning(s.callers[c]) == Owning(t.callers[c]) ==> t.running == s.running
    requires Owning(s.callers[c]) && !Owning(t.callers[c]) ==> !t.running
    requires !Owning(s.callers[c]) && Owning(t.callers[c]) ==> !s.running && t.running
    ensures Exclusive(t)
  {
    assert forall d: nat :: d != c ==> (IsOwner(t, d) <==> IsOwner(s, d));
    assert IsOwner(s, c) <==> Owning(s.callers[c]);
    assert IsOwner(t, c) <==> Owning(t.callers[c]);
  }

  /** Only the owner changes the table, and only while the flag is set. */
  lemma WritesUnderTheFlag(lang: Language, s: State, a: Action, concurrency: nat)
    requires Exclusive(s) && Enabled(lang, s, a)
    requires Next(lang, s, a, concurrency).history != s.history
    ensures s.running && Next(lang, s, a, concurrency).running
    ensures exists c :: By(a, c) && IsOwner(s, c)
  {
    assert By(a, a.c) && IsOwner(s, a.c);
  }

  /** A caller that finds the flag set returns at once and changes nothing else. */
  lemma RejectedChangesNothing(lang: Language, s: State, c: nat, concurrency: nat)
    requires Exclusive(s) && Enabled(lang, s, Swap(c))
    requires exists d :: IsOwner(s, d)
    ensures Next(lang, s, Swap(c), concurrency) == Put(s, c, Returned(AlreadyExists))
  {
  }

  // ----- what a rejected call changes -----

  /** The actions without caller `c`'s. */
  ghost function WithoutCaller(actions: seq<Action>, c: nat): seq<Action> {
    if actions == [] then []
    else
      var rest, last := WithoutCaller(actions[..|actions| - 1], c), actions[|actions| - 1];
      if By(last, c) then rest else rest + [last]
  }

  /** The same state, with caller `c` standing at `caller`. */
  function Moved(s: State, c: nat, caller: Caller): State {
    if c < |s.callers| then Put(s, c, caller) else s
  }

  ghost predicate SameButFor(s: State, t: State, c: nat) {
    c < |s.callers| == |t.callers| && t == Moved(s, c, t.callers[c])
  }

  lemma PutsCommute(callers: seq<Caller>, c: nat, x: Caller, d: nat, y: Caller)
    requires c < |callers| && d < |callers| && c != d
    ensures callers[c := x][d := y] == callers[d := y][c := x]
  {
  }

  /** Another caller's step does not depend on where `c` stands, and leaves it there. */
  lemma OthersStep(lang: Language, s: State, c: nat, x: Caller, a: Action, concurrency: nat)
    requires c < |s.callers| && Enabled(lang, s, a) && !By(a, c)
    ensures Enabled(lang, Moved(s, c, x), a)
    ensures Next(lang, Moved(s, c, x), a, concurrency) == Moved(Next(lang, s, a, concurrency), c, x)
  {
    if !a.Appear? {
      assert Moved(s, c, x).callers[a.c] == s.callers[a.c];
      PutsCommute(s.callers, c, x, a.c, Next(lang, s, a, concurrency).callers[a.c]);
    }
  }

  /** Over the whole run, all that caller `c` does is to call and to be rejected because another owns the flag. */
  ghost predicate OnlyRejected(states: seq<State>, actions: seq<Action>, c: nat)
    requires |states| == |actions| + 1
  {
    forall j :: 0 <= j < |actions| && By(actions[j], c) ==>
      actions[j].Call? || (actions[j].Swap? && exists d :: IsOwner(states[j], d))
  }

  lemma RejectedStep(lang: Language, s: State, c: nat, a: Action, concurrency: nat)
    requires Exclusive(s) && Enabled(lang, s, a) && By(a, c)
    requires a.Call? || (a.Swap? && exists d :: IsOwner(s, d))
    ensures c < |s.callers| && SameButFor(s, Next(lang, s, a, concurrency), c)
  {
    if a.Swap? {
      RejectedChangesNothing(lang, s, c, concurrency);
    }
  }

  lemma RunGoesOn(lang: Language, concurrency: nat, states: seq<State>, actions: seq<Action>, a: Action)
    requires IsRun(lang, concurrency, states, actions) && Enabled(lang, states[|actions|], a)
    ensures IsRun(lang, concurrency, states + [Next(lang, states[|actions|], a, concurrency)], actions + [a])
  {
  }

  lemma RunStops(lang: Language, concurrency: nat, states: seq<State>, actions: seq<Action>)
    requires IsRun(lang, concurrency, states, actions) && actions != []
    ensures var n := |actions| - 1;
            && IsRun(lang, concurrency, states[..n + 1], actions[..n])
            && Enabled(lang, states[n], actions[n])
            && states[n + 1] == Next(lang, states[n], actions[n], concurrency)
  {
  }

  /** Where the run without caller `c` ends, next to the run itself. */
  ghost predicate EndsAlike(first: State, last: State, without: State, c: nat) {
    && Exclusive(last) && SameButFor(last, without, c)
    && c < |first.callers| && without.callers[c] == first.callers[c]
  }

  /**
   Rejected calls might as well not have been made: from any state in which flag and owner agree, take out of a run
   all steps of a caller that was only ever rejected, and what is left is a run that ends in the same table, flag,
   log and callers, but for that caller.
   */
  lemma {:induction false} RejectedCallsLeaveNoTrace(
    lang: Language, concurrency: nat, states: seq<State>, actions: seq<Action>, c: nat) returns (others: seq<State>)
    requires IsRun(lang, concurrency, states, actions) && Exclusive(states[0]) && c < |states[0].callers|
    requires OnlyRejected(states, actions, c)
    ensures IsRun(lang, concurrency, others, WithoutCaller(actions, c)) && others[0] == states[0]
    ensures EndsAlike(states[0], states[|actions|], others[|others| - 1], c)
    decreases |actions|
  {
    if actions == [] {
      others := states;
    } else {
      var n := |actions| - 1;
      RunStops(lang, concurrency, states, actions);
      assert OnlyRejected(states[..n + 1], actions[..n], c);
      others := RejectedCallsLeaveNoTrace(lang, concurrency, states[..n + 1], actions[..n], c);
      var last := others[|others| - 1];
      AlikeStep(lang, states[0], states[n], last, c, actions[n], concurrency);
      if !By(actions[n], c) {
        RunGoesOn(lang, concurrency, others, WithoutCaller(actions[..n], c), actions[n]);
        others := others + [Next(lang, last, actions[n], concurrency)];
      }
    }
  }

  lemma AlikeStep(lang: Language, first: State, s: State, t: State, c: nat, a: Action, concurrency: nat)
    requires EndsAlike(first, s, t, c) && Enabled(lang, s, a)
    requires By(a, c) ==> a.Call? || (a.Swap? && exists d :: IsOwner(s, d))
    ensures if By(a, c) then EndsAlike(first, Next(lang, s, a, concurrency), t, c)
            else Enabled(lang, t, a)
                 && EndsAlike(first, Next(lang, s, a, concurrency), Next(lang, t, a, concurrency), c)
  {
    StepExclusive(lang, s, a, concurrency);
    if By(a, c) {
      RejectedStep(lang, s, c, a, concurrency);
    } else {
      OthersStep(lang, s, c, t.callers[c], a, concurrency);
    }
  }

  // ----- what a lost notification changes -----

  /** The same action, with a notification getting through. */
  function Reaching(a: Action): Action {
    if a.Notify? then a.(ok := true) else a
  }

  /** The same event, with a notification having got through. */
  function Reached(e: Event): Event {
    if e.Notified? then e.(ok := true) else e
  }

  /** The same state, had every notification got through. */
  function Heard(s: State): State {
    s.(log := seq(|s.log|, i requires 0 <= i < |s.log| => Reached(s.log[i])))
  }

  /** No step reads the log, and none but a notification knows whether it got through. */
  lemma LogIsOnlyWritten(lang: Language, s: State, a: Action, concurrency: nat, log: seq<Event>)
    requires Enabled(lang, s, a)
    ensures Enabled(lang, s.(log := log), Reaching(a))
    ensures var t, u := Next(lang, s, a, concurrency), Next(lang, s.(log := log), Reaching(a), concurrency);
            || (t.log == s.log && u == t.(log := log))
            || (t.log != [] && t.log == s.log + [t.log[|t.log| - 1]]
                && u == t.(log := log + [Reached(t.log[|t.log| - 1])]))
  {
    match a
    case Call(_, _) =>
    case Swap(_) =>
    case LastID(_, _) =>
    case IDs(_, _) =>
    case PoolStep(c, b) => PoolOnlyLogs(lang, s, c, b, concurrency, log);
    case Check(_) =>
    case Truncate(_, _) =>
    case Notify(_, _) =>
    case Release(_) =>
    case Appear(_) =>
  }

  lemma PoolOnlyLogs(lang: Language, s: State, c: nat, b: Pools.Action, concurrency: nat, log: seq<Event>)
    requires Enabled(lang, s, PoolStep(c, b))
    ensures Enabled(lang, s.(log := log), PoolStep(c, b))
    ensures var t := Next(lang, s, PoolStep(c, b), concurrency);
            var u := Next(lang, s.(log := log), PoolStep(c, b), concurrency);
            if b.AddOk? then
              var e := Wrote(c, s.callers[c].pool.workers[b.w].id);
              t.log == s.log + [e] && u == t.(log := log + [e])
            else t.log == s.log && u == t.(log := log)
  {
    var caller := s.callers[c];
    assert s.(log := log).callers[c] == caller;
  }

  lemma HeardStep(lang: Language, s: State, a: Action, concurrency: nat)
    requires Enabled(lang, s, a)
    ensures Enabled(lang, Heard(s), Reaching(a))
    ensures Next(lang, Heard(s), Reaching(a), concurrency) == Heard(Next(lang, s, a, concurrency))
  {
    LogIsOnlyWritten(lang, s, a, concurrency, Heard(s).log);
    var t := Next(lang, s, a, concurrency);
    if t.log != s.log {
      assert Heard(s).log + [Reached(t.log[|t.log| - 1])] == Heard(t).log;
    }
  }

  /**
   Whether notifications get through makes no difference to anything but the word of it in the log: the same run
   with every notification getting through is a run, and in each of its states the flag, the callers, what they
   returned and every table are the same.
   */
  lemma LostNotificationsChangeNothing(lang: Language, concurrency: nat, states: seq<State>, actions: seq<Action>)
    returns (heard: seq<State>, reaching: seq<Action>)
    requires IsRun(lang, concurrency, states, actions)
    ensures IsRun(lang, concurrency, heard, reaching) && |reaching| == |actions|
    ensures forall i :: 0 <= i < |reaching| ==>
              reaching[i] == if actions[i].Notify? then Notify(actions[i].c, true) else actions[i]
    ensures forall i :: 0 <= i < |heard| ==> heard[i] == states[i].(log := heard[i].log)
  {
    heard := seq(|states|, i requires 0 <= i < |states| => Heard(states[i]));
    reaching := seq(|actions|, i requires 0 <= i < |actions| => Reaching(actions[i]));
    forall i | 0 <= i < |reaching|
      ensures Enabled(lang, heard[i], reaching[i])
      ensures heard[i + 1] == Next(lang, heard[i], reaching[i], concurrency)
    {
      HeardStep(lang, states[i], actions[i], concurrency);
    }
  }
}
