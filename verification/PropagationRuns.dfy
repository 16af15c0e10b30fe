/** Whole runs of the propagation: no wake-up is lost, no search is torn, and exactly what can go stale. */
module PropagationRuns {
  import opened Lists
  import opened ComicsTable
  import opened Ranking
  import opened InvertedIndex
  import opened Propagation

  // ----- no lost wake-up -----

  /** Nothing carries a version that does not exist yet, and while the newest delivered one is unseen, a List is due. */
  ghost predicate Covered(s: State) {
    && s.history != []
    && -1 <= s.past.delivered <= Latest(s) && -1 <= s.past.looked <= Latest(s)
    && (forall v :: v in s.inflight ==> v <= Latest(s))
    && (s.past.delivered > s.past.looked ==> s.trigger || s.subscriber.Listing?)
    && s.past.builds + (if s.trigger then 1 else 0) <= s.past.deliveries
  }

  lemma StepCovered(s: State, a: Action)
    requires Covered(s) && Enabled(s, a)
    ensures Covered(Next(s, a))
  {
    match a
    case Env(o) => OutsideCovered(s, o);
    case Build(b, step) =>
    case Search(_, _) =>
  }

  lemma OutsideCovered(s: State, o: Outside)
    requires Covered(s) && OutsideEnabled(s, o)
    ensures Covered(OutsideNext(s, o))
  {
  }

  // ----- freshness -----

  /** It has been installed once, or is in the subscriber's hands. */
  ghost predicate InstalledOnce(s: State) {
    s.past.looked <= s.past.newest || Pending(s.subscriber)
  }

  /**
   An index of version `v` or later is installed or will be: the subscriber is about to swap one in, and an
   older listing of the initiator's can only get in before it.
   */
  ghost predicate Heading(s: State, v: int) {
    && (v <= s.past.version || (Pending(s.subscriber) && v <= s.subscriber.version))
    && (Pending(s.initiator) ==> v <= s.initiator.version || (Writing(s.initiator) && Pending(s.subscriber)))
  }

  ghost predicate Fresh(s: State) {
    && s.history != []
    && s.past.version <= s.past.newest && s.past.version <= Latest(s) && s.past.looked <= Latest(s)
    && (Pending(s.initiator) ==> s.initiator.version <= Latest(s))
    && (Pending(s.subscriber) ==> s.subscriber.version == s.past.looked && !s.past.lastFailed)
    && (!s.past.lastFailed ==> InstalledOnce(s))
    && (!s.past.lastFailed && !s.past.outrun ==> Heading(s, s.past.looked))
  }

  /** The subscriber looks at the table. */
  predicate SubscriberLists(a: Action) {
    a.Build? && a.b.Subscriber? && (a.step.ListOk? || a.step.ListFail?)
  }

  /** Where the subscriber's last List is heading is not changed by anything but its next one. */
  lemma HeadingStays(s: State, a: Action, v: int)
    requires Excluded(s) && Enabled(s, a) && !SubscriberLists(a)
    requires Heading(s, v) && v <= Latest(s) && (Pending(s.subscriber) ==> v <= s.subscriber.version)
    ensures Heading(Next(s, a), v)
    ensures Pending(Next(s, a).subscriber) ==> Pending(s.subscriber) && Next(s, a).subscriber.version == s.subscriber.version
  {
    match a
    case Env(_) =>
    case Build(b, step) => BuildHeads(s, b, step, v);
    case Search(_, _) =>
  }

  lemma BuildHeads(s: State, b: Who, step: BuildStep, v: int)
    requires Excluded(s) && BuildEnabled(s, b, step) && !SubscriberLists(Build(b, step))
    requires Heading(s, v) && v <= Latest(s) && (Pending(s.subscriber) ==> v <= s.subscriber.version)
    ensures Heading(BuildNext(s, b, step), v)
    ensures Pending(BuildNext(s, b, step).subscriber) ==>
              Pending(s.subscriber) && BuildNext(s, b, step).subscriber.version == s.subscriber.version
  {
  }

  lemma StepFresh(s: State, a: Action)
    requires Excluded(s) && Fresh(s) && Enabled(s, a)
    ensures Fresh(Next(s, a))
  {
    match a
    case Env(o) =>
    case Build(b, step) => BuildFresh(s, b, step);
    case Search(_, _) =>
  }

  lemma BuildFresh(s: State, b: Who, step: BuildStep)
    requires Excluded(s) && Fresh(s) && BuildEnabled(s, b, step)
    ensures Fresh(BuildNext(s, b, step))
  {
    if !SubscriberLists(Build(b, step)) && Heading(s, s.past.looked) {
      BuildHeads(s, b, step, s.past.looked);
    }
  }

  // ----- runs -----

  ghost predicate Invariant(s: State) {
    Untorn(s) && Covered(s) && Fresh(s)
  }

  lemma {:induction false} RunInvariant(table: Table, readers: nat, states: seq<State>, actions: seq<Action>, k: nat)
    requires IsRun(table, readers, states, actions) && k <= |actions|
    ensures Invariant(states[k])
  {
    if k == 0 {
      InitialUntorn(table, readers);
    } else {
      RunInvariant(table, readers, states, actions, k - 1);
      assert states[k] == states[k - 1 + 1];
      StepUntorn(states[k - 1], actions[k - 1]);
      StepCovered(states[k - 1], actions[k - 1]);
      StepFresh(states[k - 1], actions[k - 1]);
    }
  }

  lemma RunUntorn(table: Table, readers: nat, states: seq<State>, actions: seq<Action>, k: nat)
    requires IsRun(table, readers, states, actions) && k <= |actions|
    ensures Untorn(states[k])
  {
    RunInvariant(table, readers, states, actions, k);
  }

  lemma RunFresh(table: Table, readers: nat, states: seq<State>, actions: seq<Action>, k: nat)
    requires IsRun(table, readers, states, actions) && k <= |actions|
    ensures Fresh(states[k])
  {
    RunInvariant(table, readers, states, actions, k);
  }

  /** The subscriber has nothing to do and the initiator no listing in hand. */
  ghost predicate Quiescent(s: State) {
    !s.trigger && s.subscriber.Idle? && !Pending(s.initiator)
  }

  /** The subscriber has been woken and has not listed yet. */
  predicate Awaited(s: State) {
    s.trigger || s.subscriber.Listing?
  }

  lemma WaitingStays(s: State, a: Action)
    requires Enabled(s, a) && !SubscriberLists(a) && Awaited(s)
    ensures Awaited(Next(s, a))
  {
    match a
    case Env(_) =>
    case Build(_, _) =>
    case Search(_, _) =>
  }

  lemma {:induction false} AwaitedUntilListed(states: seq<State>, actions: seq<Action>, i: nat, k: nat)
    requires i <= k <= |actions| && |states| == |actions| + 1 && Awaited(states[i])
    requires forall j :: i <= j < k && Awaited(states[j]) && !SubscriberLists(actions[j]) ==> Awaited(states[j + 1])
    ensures Awaited(states[k]) || exists j :: i <= j < k && SubscriberLists(actions[j])
    decreases k
  {
    if i < k {
      AwaitedUntilListed(states, actions, i, k - 1);
      assert Awaited(states[k - 1]) && !SubscriberLists(actions[k - 1]) ==> Awaited(states[k - 1 + 1]);
    }
  }

  lemma RunAwaits(table: Table, readers: nat, states: seq<State>, actions: seq<Action>, j: nat)
    requires IsRun(table, readers, states, actions) && j < |actions|
    requires Awaited(states[j]) && !SubscriberLists(actions[j])
    ensures Awaited(states[j + 1])
  {
    assert Enabled(states[j], actions[j]);
    WaitingStays(states[j], actions[j]);
  }

  /** A delivery fills the trigger, and its message was published by then. */
  lemma DeliveryWakes(table: Table, readers: nat, states: seq<State>, actions: seq<Action>, i: nat)
    requires IsRun(table, readers, states, actions) && i < |actions|
    requires actions[i].Env? && actions[i].o.Deliver?
    ensures states[i + 1].trigger && !states[i + 1].subscriber.Stopped? && actions[i].o.v <= Latest(states[i + 1])
  {
    RunInvariant(table, readers, states, actions, i);
    assert Enabled(states[i], actions[i]);
  }

  /**
   No lost wake-up: after every delivery, in every later state of every run, the trigger is full, or the subscriber
   is about to List, or it has Listed since the delivery, at the version the message was published at or later. It
   never builds more often than messages were delivered.
   */
  lemma NoLostWakeUp(table: Table, readers: nat, states: seq<State>, actions: seq<Action>, i: nat, k: nat)
    requires IsRun(table, readers, states, actions) && i < k <= |actions|
    requires actions[i].Env? && actions[i].o.Deliver?
    ensures states[k].trigger || states[k].subscriber.Listing?
            || exists j :: i < j < k && SubscriberLists(actions[j]) && actions[i].o.v <= Latest(states[j])
    ensures states[k].past.builds <= states[k].past.deliveries
  {
    DeliveryWakes(table, readers, states, actions, i);
    forall j | i + 1 <= j < k && Awaited(states[j]) && !SubscriberLists(actions[j])
      ensures Awaited(states[j + 1])
    {
      RunAwaits(table, readers, states, actions, j);
    }
    AwaitedUntilListed(states, actions, i + 1, k);
    if j :| i + 1 <= j < k && SubscriberLists(actions[j]) {
      HistoryExtends(table, readers, states, actions, i + 1, j);
    }
    RunInvariant(table, readers, states, actions, k);
  }

  /**
   The callback never blocks: in every state of every run, whatever the subscriber is doing short of having stopped,
   any message on its way can be delivered, and then the trigger is full and a List is due; a message that comes
   while the trigger is full changes nothing else.
   */
  lemma CallbackNeverBlocks(table: Table, readers: nat, states: seq<State>, actions: seq<Action>, k: nat, v: nat)
    requires IsRun(table, readers, states, actions) && k <= |actions|
    requires v in states[k].inflight && !states[k].subscriber.Stopped?
    ensures Enabled(states[k], Env(Deliver(v))) && v <= Latest(states[k])
    ensures var t := Next(states[k], Env(Deliver(v)));
            Awaited(t) && t == states[k].(trigger := true, inflight := t.inflight, past := t.past)
  {
    RunInvariant(table, readers, states, actions, k);
  }

  /** What rest means for one state. */
  lemma AtRest(s: State)
    requires Invariant(s) && Quiescent(s) && !s.past.lastFailed && !s.past.outrun
    ensures s.past.delivered <= s.past.looked <= s.past.version <= Latest(s)
    ensures s.index == IndexOf(s.past.rows) && s.comics == CatalogueOf(TableOf(s.past.rows))
    ensures s.past.version >= 0 ==> IsListing(s.past.rows, s.history[s.past.version])
  {
  }

  /**
   At rest, if the subscriber's last List succeeded and did not meet the initiator waiting for the lock with an
   older listing, the installed index is that of the last delivered version or a later one, and both halves are
   what a List of that version saw. What builds did before that List does not matter.
   */
  lemma FreshAtRest(table: Table, readers: nat, states: seq<State>, actions: seq<Action>, k: nat)
    requires IsRun(table, readers, states, actions) && k <= |actions|
    requires Quiescent(states[k]) && !states[k].past.lastFailed && !states[k].past.outrun
    ensures var s := states[k];
            && s.past.version >= s.past.delivered
            && (s.past.version >= 0 ==>
                  s.past.version < |s.history| && Represents(s.index, s.comics, s.history[s.past.version]))
  {
    RunInvariant(table, readers, states, actions, k);
    var s := states[k];
    AtRest(s);
    if s.past.version >= 0 {
      IndexOfRepresents(s.past.rows, s.history[s.past.version]);
    }
  }

  lemma ListingStays(s: State, a: Action)
    requires Enabled(s, a) && !SubscriberLists(a)
    ensures SameListing(s, Next(s, a))
  {
    match a
    case Env(_) =>
    case Build(_, _) =>
    case Search(_, _) =>
  }

  lemma ListingRecorded(s: State, rows: seq<Row>)
    requires Enabled(s, Build(Subscriber, ListOk(rows)))
    ensures var t := Next(s, Build(Subscriber, ListOk(rows)));
            && t.past.looked == Latest(s) && !t.past.lastFailed
            && (t.past.outrun <==> s.initiator.Built? && s.initiator.version < Latest(s))
  {
  }

  ghost predicate SameListing(s: State, t: State) {
    t.past.looked == s.past.looked && t.past.lastFailed == s.past.lastFailed && t.past.outrun == s.past.outrun
  }

  lemma {:induction false} ListingRemains(states: seq<State>, i: nat, k: nat)
    requires i <= k < |states| && forall j: nat :: i <= j < k ==> SameListing(states[j], states[j + 1])
    ensures SameListing(states[i], states[k])
    decreases k
  {
    if i < k {
      ListingRemains(states, i, k - 1);
      assert SameListing(states[k - 1], states[k - 1 + 1]);
    }
  }

  lemma RunListingStays(table: Table, readers: nat, states: seq<State>, actions: seq<Action>, j: nat)
    requires IsRun(table, readers, states, actions) && j < |actions| && !SubscriberLists(actions[j])
    ensures SameListing(states[j], states[j + 1])
  {
    assert Enabled(states[j], actions[j]);
    ListingStays(states[j], actions[j]);
  }

  /** What the record says of the subscriber's last List. */
  lemma LastList(table: Table, readers: nat, states: seq<State>, actions: seq<Action>, i: nat, k: nat)
    requires IsRun(table, readers, states, actions) && i < k <= |actions|
    requires actions[i].Build? && actions[i].b.Subscriber? && actions[i].step.ListOk?
    requires forall j :: i < j < k ==> !SubscriberLists(actions[j])
    ensures states[k].past.looked == Latest(states[i]) && !states[k].past.lastFailed
    ensures states[k].past.outrun <==> states[i].initiator.Built? && states[i].initiator.version < Latest(states[i])
  {
    assert Enabled(states[i], actions[i]) && states[i + 1] == Next(states[i], actions[i]);
    ListingRecorded(states[i], actions[i].step.rows);
    forall j: nat | i + 1 <= j < k
      ensures SameListing(states[j], states[j + 1])
    {
      RunListingStays(table, readers, states, actions, j);
    }
    ListingRemains(states, i + 1, k);
  }

  /**
   The same said of the List itself: if it succeeded and the initiator was not waiting for the lock with an older
   listing at that moment, then at rest, before the subscriber's next List, the index is at least as new as that
   List and as every notification delivered.
   */
  lemma FreshSinceLastList(
    table: Table, readers: nat, states: seq<State>, actions: seq<Action>, i: nat, k: nat)
    requires IsRun(table, readers, states, actions) && i < k <= |actions|
    requires actions[i].Build? && actions[i].b.Subscriber? && actions[i].step.ListOk?
    requires !(states[i].initiator.Built? && states[i].initiator.version < Latest(states[i]))
    requires forall j :: i < j < k ==> !SubscriberLists(actions[j])
    requires Quiescent(states[k])
    ensures states[k].past.delivered <= Latest(states[i]) <= states[k].past.version
  {
    LastList(table, readers, states, actions, i, k);
    RunInvariant(table, readers, states, actions, k);
    AtRest(states[k]);
  }

  /**
   Even when it did: at rest, an index of the last delivered version or a later one has been installed, and it is
   gone only if an older listing was swapped in over it.
   */
  lemma FreshOnceAtRest(table: Table, readers: nat, states: seq<State>, actions: seq<Action>, k: nat)
    requires IsRun(table, readers, states, actions) && k <= |actions|
    requires Quiescent(states[k]) && !states[k].past.lastFailed
    ensures states[k].past.newest >= states[k].past.delivered
    ensures states[k].past.version < states[k].past.delivered ==> states[k].past.version < states[k].past.newest
  {
    RunInvariant(table, readers, states, actions, k);
  }

  /** Only the subscriber may hold a listing, and none older than the installed one. */
  ghost predicate SoleBuilder(s: State) {
    && (s.initiator.Idle? || s.initiator.Stopped?)
    && (Pending(s.subscriber) ==> s.past.version <= s.subscriber.version)
  }

  lemma SoleBuilderStep(s: State, a: Action)
    requires Fresh(s) && Enabled(s, a) && SoleBuilder(s)
    requires Next(s, a).initiator.Idle? || Next(s, a).initiator.Stopped?
    ensures SoleBuilder(Next(s, a)) && s.past.version <= Next(s, a).past.version
  {
    match a
    case Env(_) =>
    case Build(b, step) => SoleBuilderBuilds(s, b, step);
    case Search(_, _) =>
  }

  lemma SoleBuilderBuilds(s: State, b: Who, step: BuildStep)
    requires Fresh(s) && BuildEnabled(s, b, step) && SoleBuilder(s)
    requires b.Initiator? ==> Moved(s, b, step).Idle? || Moved(s, b, step).Stopped?
    ensures SoleBuilder(BuildNext(s, b, step)) && s.past.version <= BuildNext(s, b, step).past.version
  {
    if b.Subscriber? {
      assert BuildNext(s, b, step).initiator == s.initiator;
    } else {
      assert BuildNext(s, b, step).past == s.past;
    }
  }

  lemma SoleBuilderRunStep(table: Table, readers: nat, states: seq<State>, actions: seq<Action>, k: nat)
    requires IsRun(table, readers, states, actions) && k < |actions|
    requires SoleBuilder(states[k]) && (states[k + 1].initiator.Idle? || states[k + 1].initiator.Stopped?)
    ensures SoleBuilder(states[k + 1]) && states[k].past.version <= states[k + 1].past.version
  {
    RunFresh(table, readers, states, actions, k);
    assert Enabled(states[k], actions[k]);
    SoleBuilderStep(states[k], actions[k]);
  }

  /**
   Over any stretch in which the initiator does not build, whatever happened before it, installed versions never
   go back, even when Lists fail.
   */
  lemma {:induction false} SoleBuilderGoesForward(
    table: Table, readers: nat, states: seq<State>, actions: seq<Action>, i: nat, k: nat)
    requires IsRun(table, readers, states, actions) && i <= k <= |actions|
    requires SoleBuilder(states[i])
    requires forall j :: i <= j <= k ==> states[j].initiator.Idle? || states[j].initiator.Stopped?
    ensures SoleBuilder(states[k]) && states[i].past.version <= states[k].past.version
    decreases k
  {
    if i < k {
      SoleBuilderGoesForward(table, readers, states, actions, i, k - 1);
      SoleBuilderRunStep(table, readers, states, actions, k - 1);
      assert states[k] == states[k - 1 + 1];
    }
  }

  // ----- searches -----

  /** The table whose listing is installed; the empty one before the first swap. */
  function Installed(s: State): Table {
    if 0 <= s.past.version < |s.history| then s.history[s.past.version] else map[]
  }

  lemma AnswerStands(
    table: Table, readers: nat, states: seq<State>, actions: seq<Action>, k: nat, r: nat)
    requires IsRun(table, readers, states, actions) && k <= |actions|
    requires r < |states[k].readers| && states[k].readers[r].Answered?
    ensures var q := states[k].readers[r];
            var snapshot := if 0 <= q.version < |states[k].history| then states[k].history[q.version] else map[];
            && -1 <= q.version < |states[k].history|
            && IsAnswer(snapshot, ToSet(q.keywords), q.limit, q.result)
  {
    RunInvariant(table, readers, states, actions, k);
    assert ReaderSound(states[k].history, states[k].past, states[k].readers[r]);
  }

  /** The search `r` is at work on, or has answered, the query it took the lock for. */
  ghost predicate OnSnapshot(reader: Reader, keywords: seq<string>, limit: nat, version: int) {
    && (Reading(reader) || reader.Answered?)
    && reader.keywords == keywords && reader.limit == limit && reader.version == version
  }

  /** A search keeps its query and its snapshot until it is asked again. */
  lemma SnapshotStays(s: State, a: Action, r: nat, keywords: seq<string>, limit: nat, version: int)
    requires Enabled(s, a) && r < |s.readers| && OnSnapshot(s.readers[r], keywords, limit, version)
    requires !(a.Search? && a.r == r && a.q.Ask?)
    ensures r < |Next(s, a).readers| && OnSnapshot(Next(s, a).readers[r], keywords, limit, version)
  {
    match a
    case Env(_) =>
    case Build(_, _) =>
    case Search(_, _) =>
  }

  /** From taking the lock on, a search works on the version installed at that moment. */
  lemma {:induction false} LockedSnapshot(
    table: Table, readers: nat, states: seq<State>, actions: seq<Action>, i: nat, k: nat, r: nat)
    requires IsRun(table, readers, states, actions) && i < k <= |actions|
    requires actions[i] == Search(r, RLock)
    requires forall j :: i < j < k ==> !(actions[j].Search? && actions[j].r == r && actions[j].q.Ask?)
    ensures r < |states[i].readers| && states[i].readers[r].Waiting? && r < |states[k].readers|
    ensures OnSnapshot(states[k].readers[r],
                       states[i].readers[r].keywords, states[i].readers[r].limit, states[i].past.version)
    decreases k
  {
    assert Enabled(states[i], actions[i]) && states[i + 1] == Next(states[i], actions[i]);
    if i + 1 < k {
      LockedSnapshot(table, readers, states, actions, i, k - 1, r);
      assert states[k] == states[k - 1 + 1];
      assert Enabled(states[k - 1], actions[k - 1]);
      SnapshotStays(states[k - 1], actions[k - 1], r,
                    states[i].readers[r].keywords, states[i].readers[r].limit, states[i].past.version);
    }
  }

  /** A search asks once in these steps: nothing else is asked of it. */
  ghost predicate AskedOnce(actions: seq<Action>, i: nat, k: nat, r: nat, keywords: seq<string>, limit: nat) {
    && i < k <= |actions| && actions[i] == Search(r, Ask(keywords, limit))
    && forall j :: i < j < k ==> !(actions[j].Search? && actions[j].r == r && actions[j].q.Ask?)
  }

  /** A search that waits keeps its query, and takes it along when it gets the lock. */
  lemma QueryStays(s: State, a: Action, r: nat, keywords: seq<string>, limit: nat)
    requires Enabled(s, a) && r < |s.readers| && s.readers[r] == Waiting(keywords, limit)
    requires !(a.Search? && a.r == r && a.q.Ask?)
    ensures r < |Next(s, a).readers|
    ensures if a == Search(r, RLock) then OnSnapshot(Next(s, a).readers[r], keywords, limit, s.past.version)
            else Next(s, a).readers[r] == Waiting(keywords, limit)
  {
    match a
    case Env(_) =>
    case Build(_, _) =>
    case Search(_, _) =>
  }

  /** The search waits with the query it was asked, or took the lock in step `l` and works on that query. */
  ghost predicate OnQuery(
    states: seq<State>, actions: seq<Action>, i: nat, k: nat, r: nat, keywords: seq<string>, limit: nat, l: nat)
    requires k < |states|
  {
    && r < |states[k].readers|
    && (|| states[k].readers[r] == Waiting(keywords, limit)
        || (i < l < k && l < |actions| && actions[l] == Search(r, RLock)
            && OnSnapshot(states[k].readers[r], keywords, limit, states[l].past.version)))
  }

  lemma {:induction false} AskedQuery(
    table: Table, readers: nat, states: seq<State>, actions: seq<Action>, i: nat, k: nat, r: nat,
    keywords: seq<string>, limit: nat) returns (l: nat)
    requires IsRun(table, readers, states, actions) && AskedOnce(actions, i, k, r, keywords, limit)
    ensures OnQuery(states, actions, i, k, r, keywords, limit, l)
    decreases k
  {
    l := 0;
    if i + 1 == k {
      assert Enabled(states[i], actions[i]) && states[k] == Next(states[i], actions[i]);
    } else {
      l := AskedQuery(table, readers, states, actions, i, k - 1, r, keywords, limit);
      l := RunQueryStep(table, readers, states, actions, i, k - 1, r, keywords, limit, l);
    }
  }

  lemma RunQueryStep(
    table: Table, readers: nat, states: seq<State>, actions: seq<Action>, i: nat, k: nat, r: nat,
    keywords: seq<string>, limit: nat, before: nat) returns (l: nat)
    requires IsRun(table, readers, states, actions) && i < k < |actions|
    requires !(actions[k].Search? && actions[k].r == r && actions[k].q.Ask?)
    requires OnQuery(states, actions, i, k, r, keywords, limit, before)
    ensures OnQuery(states, actions, i, k + 1, r, keywords, limit, l)
  {
    l := before;
    assert Enabled(states[k], actions[k]);
    if states[k].readers[r] == Waiting(keywords, limit) {
      QueryStays(states[k], actions[k], r, keywords, limit);
      l := k;
    } else {
      SnapshotStays(states[k], actions[k], r, keywords, limit, states[l].past.version);
    }
  }

  /**
   No torn read: whatever builders did while a search ran, its answer to the query it was asked is a correct ranked
   answer on one table, the one whose listing was installed when it took the read lock.
   */
  lemma SearchesAreAtomic(
    table: Table, readers: nat, states: seq<State>, actions: seq<Action>, i: nat, k: nat, r: nat,
    keywords: seq<string>, limit: nat) returns (l: nat)
    requires IsRun(table, readers, states, actions) && AskedOnce(actions, i, k, r, keywords, limit)
    requires r < |states[k].readers| && states[k].readers[r].Answered?
    ensures i < l < k && actions[l] == Search(r, RLock) && -1 <= states[l].past.version < |states[l].history|
    ensures IsAnswer(Installed(states[l]), ToSet(keywords), limit, states[k].readers[r].result)
  {
    l := AskedQuery(table, readers, states, actions, i, k, r, keywords, limit);
    RunUntorn(table, readers, states, actions, l);
    AnswerStands(table, readers, states, actions, k, r);
    HistoryExtends(table, readers, states, actions, l, k);
  }

  /** The same for a search seen taking the lock: it answers on what was installed in that step. */
  lemma LockedAnswer(
    table: Table, readers: nat, states: seq<State>, actions: seq<Action>, h: nat, i: nat, k: nat, r: nat,
    keywords: seq<string>, limit: nat)
    requires IsRun(table, readers, states, actions) && AskedOnce(actions, h, k, r, keywords, limit)
    requires h < i < k && actions[i] == Search(r, RLock)
    requires r < |states[k].readers| && states[k].readers[r].Answered?
    ensures -1 <= states[i].past.version < |states[i].history|
    ensures IsAnswer(Installed(states[i]), ToSet(keywords), limit, states[k].readers[r].result)
  {
    var l := AskedQuery(table, readers, states, actions, h, i, r, keywords, limit);
    assert Enabled(states[i], actions[i]);
    RunUntorn(table, readers, states, actions, i);
    LockedSnapshot(table, readers, states, actions, i, k, r);
    AnswerStands(table, readers, states, actions, k, r);
    HistoryExtends(table, readers, states, actions, i, k);
  }

  /** While a search is reading, every ranked comic is in the catalogue: the missing-comic branch is never taken. */
  lemma NoMissingComic(
    table: Table, readers: nat, states: seq<State>, actions: seq<Action>, k: nat, r: nat)
    requires IsRun(table, readers, states, actions) && k <= |actions|
    requires r < |states[k].readers| && states[k].readers[r].Fetching?
    ensures forall i :: 0 <= i < |states[k].readers[r].ids| ==> states[k].readers[r].ids[i] in states[k].comics
    ensures |states[k].readers[r].result| == states[k].readers[r].j
  {
    RunInvariant(table, readers, states, actions, k);
    var q := states[k].readers[r];
    assert ReaderSound(states[k].history, states[k].past, q);
    assert forall i :: 0 <= i < |q.ids| ==> q.ids[i] in ToSet(q.ids);
    PresentAll(states[k].comics, q.ids[..q.j]);
  }

  // ----- what stays -----

  lemma StopsItself(s: State, a: Action, b: Who)
    requires Enabled(s, a)
    ensures BuilderOf(Next(s, a), b).Stopped? <==> BuilderOf(s, b).Stopped? || a == Build(b, Stop)
  {
    match a
    case Env(_) =>
    case Build(_, _) =>
    case Search(_, _) =>
  }

  /** Failures stop nobody: a builder is stopped exactly when it took its step for a context that is done. */
  lemma {:induction false} OnlyDoneStops(
    table: Table, readers: nat, states: seq<State>, actions: seq<Action>, k: nat, b: Who)
    requires IsRun(table, readers, states, actions) && k <= |actions|
    ensures BuilderOf(states[k], b).Stopped? <==> exists j :: 0 <= j < k && actions[j] == Build(b, Stop)
  {
    if k > 0 {
      OnlyDoneStops(table, readers, states, actions, k - 1, b);
      assert Enabled(states[k - 1], actions[k - 1]) && states[k - 1 + 1] == Next(states[k - 1], actions[k - 1]);
      StopsItself(states[k - 1], actions[k - 1], b);
    }
  }

  lemma HistoryGrows(s: State, a: Action)
    requires Enabled(s, a)
    ensures s.history <= Next(s, a).history
  {
    match a
    case Env(_) =>
    case Build(_, _) =>
    case Search(_, _) =>
  }

  lemma {:induction false} HistoryExtends(
    table: Table, readers: nat, states: seq<State>, actions: seq<Action>, i: nat, k: nat)
    requires IsRun(table, readers, states, actions) && i <= k <= |actions|
    ensures states[i].history <= states[k].history
    decreases k
  {
    if i < k {
      HistoryExtends(table, readers, states, actions, i, k - 1);
      assert states[k] == states[k - 1 + 1];
      assert Enabled(states[k - 1], actions[k - 1]);
      HistoryGrows(states[k - 1], actions[k - 1]);
    }
  }

  predicate Resting(builder: Builder) {
    builder.Idle? || builder.Stopped?
  }

  /** Nobody builds, nothing is on its way. */
  ghost predicate Undisturbed(s: State) {
    !s.trigger && Resting(s.subscriber) && Resting(s.initiator) && s.inflight == multiset{}
  }

  /** Only a notification or the ticker ends an undisturbed rest; until then the installed pair stays. */
  lemma RestStays(s: State, a: Action)
    requires Enabled(s, a) && Undisturbed(s) && a != Env(Publish) && Resting(Next(s, a).initiator)
    ensures Undisturbed(Next(s, a))
    ensures Next(s, a).index == s.index && Next(s, a).comics == s.comics && Next(s, a).past == s.past
  {
    match a
    case Env(_) =>
    case Build(_, _) =>
    case Search(_, _) =>
  }

  // ----- the lock is never held for good -----

  /** How many steps a search that holds the read lock still needs. */
  function SearchRest(reader: Reader): nat {
    if reader.Scoring? then
      (if reader.k <= |reader.keywords| then |reader.keywords| - reader.k else 0) + reader.limit + 2
    else if reader.Fetching? then (if reader.j <= |reader.ids| then |reader.ids| - reader.j else 0) + 1
    else 0
  }

  lemma SearchGoesOn(s: State, r: nat, q: SearchStep)
    requires Untorn(s) && SearchEnabled(s, r, q) && Reading(s.readers[r])
    ensures SearchRest(SearchNext(s, r, q)) < SearchRest(s.readers[r])
  {
    assert ReaderSound(s.history, s.past, s.readers[r]);
  }

  /** A search that holds the lock can always go on, and whatever it does brings it closer to letting go. */
  lemma ReadersLetGo(s: State, r: nat, q: SearchStep)
    requires Untorn(s) && r < |s.readers| && Reading(s.readers[r])
    ensures exists own :: SearchEnabled(s, r, own)
    ensures SearchEnabled(s, r, q) ==> SearchRest(SearchNext(s, r, q)) < SearchRest(s.readers[r])
  {
    if SearchEnabled(s, r, q) {
      SearchGoesOn(s, r, q);
    }
    var own := NextOwnStep(s, r);
  }

  lemma NextOwnStep(s: State, r: nat) returns (own: SearchStep)
    requires Untorn(s) && r < |s.readers| && Reading(s.readers[r])
    ensures SearchEnabled(s, r, own)
  {
    var reader := s.readers[r];
    assert ReaderSound(s.history, s.past, reader);
    if reader.Fetching? {
      own := if reader.j < |reader.ids| then Fetch else RUnlock;
    } else if reader.k < |reader.keywords| {
      own := Count;
    } else {
      TopKExists(reader.scores, reader.limit);
      var ids :| TopK(reader.scores, reader.limit, ids);
      own := Rank(ids);
    }
  }

  /** How many steps a builder that holds the write lock still needs. */
  function SwapRest(builder: Builder): nat {
    if builder.Locked? then 3 else if builder.HalfSwapped? then 2 else if builder.Swapped? then 1 else 0
  }

  lemma WritersLetGo(s: State, b: Who, step: BuildStep)
    requires Writing(BuilderOf(s, b))
    ensures exists own :: BuildEnabled(s, b, own)
    ensures BuildEnabled(s, b, step) ==> SwapRest(BuilderOf(BuildNext(s, b, step), b)) < SwapRest(BuilderOf(s, b))
  {
    var builder := BuilderOf(s, b);
    if builder.Locked? {
      assert BuildEnabled(s, b, SwapIndex);
    } else if builder.HalfSwapped? {
      assert BuildEnabled(s, b, SwapComics);
    } else {
      assert BuildEnabled(s, b, Unlock);
    }
  }

  function SearchesRest(readers: seq<Reader>): nat {
    if readers == [] then 0 else SearchesRest(readers[..|readers| - 1]) + SearchRest(readers[|readers| - 1])
  }

  lemma {:induction false} SearchesRestUpdate(readers: seq<Reader>, r: nat, reader: Reader)
    requires r < |readers|
    ensures SearchesRest(readers[r := reader])
         == SearchesRest(readers) - SearchRest(readers[r]) + SearchRest(reader)
  {
    var last := |readers| - 1;
    var updated := readers[r := reader];
    if r == last {
      assert updated[..last] == readers[..last];
    } else {
      assert updated[..last] == readers[..last][r := reader];
      SearchesRestUpdate(readers[..last], r, reader);
    }
  }

  lemma {:induction false} NobodyReads(readers: seq<Reader>)
    ensures SearchesRest(readers) == 0 <==> forall r :: 0 <= r < |readers| ==> !Reading(readers[r])
  {
    if readers != [] {
      var last := |readers| - 1;
      NobodyReads(readers[..last]);
      assert Reading(readers[last]) <==> SearchRest(readers[last]) > 0;
      assert forall r :: 0 <= r < last ==> readers[..last][r] == readers[r];
    }
  }

  /** How many steps all those that hold the lock still need together. */
  function HoldRest(s: State): nat {
    SearchesRest(s.readers) + SwapRest(s.subscriber) + SwapRest(s.initiator)
  }

  /** A step of somebody who holds the lock. */
  ghost predicate ByHolder(s: State, a: Action) {
    || (a.Search? && a.r < |s.readers| && Reading(s.readers[a.r]))
    || (a.Build? && Writing(BuilderOf(s, a.b)))
  }

  /** A step that takes the lock. */
  predicate TakesLock(a: Action) {
    (a.Search? && a.q.RLock?) || (a.Build? && a.step.Lock?)
  }

  lemma HoldersLetGo(s: State, a: Action)
    requires Untorn(s) && Enabled(s, a) && !TakesLock(a)
    ensures HoldRest(Next(s, a)) <= HoldRest(s)
    ensures ByHolder(s, a) ==> HoldRest(Next(s, a)) < HoldRest(s)
  {
    match a
    case Env(o) => OutsideSpends(s, o);
    case Build(b, step) => BuilderSpends(s, b, step);
    case Search(r, q) => SearchSpends(s, r, q);
  }

  lemma OutsideSpends(s: State, o: Outside)
    requires OutsideEnabled(s, o)
    ensures HoldRest(Next(s, Env(o))) == HoldRest(s)
  {
  }

  lemma BuilderSpends(s: State, b: Who, step: BuildStep)
    requires BuildEnabled(s, b, step) && !step.Lock?
    ensures HoldRest(Next(s, Build(b, step))) <= HoldRest(s)
    ensures Writing(BuilderOf(s, b)) ==> HoldRest(Next(s, Build(b, step))) < HoldRest(s)
  {
    assert SwapRest(Moved(s, b, step)) <= SwapRest(BuilderOf(s, b));
    assert BuildNext(s, b, step).readers == s.readers;
  }

  lemma SearchSpends(s: State, r: nat, q: SearchStep)
    requires Untorn(s) && SearchEnabled(s, r, q) && !q.RLock?
    ensures HoldRest(Next(s, Search(r, q))) <= HoldRest(s)
    ensures Reading(s.readers[r]) ==> HoldRest(Next(s, Search(r, q))) < HoldRest(s)
  {
    SearchesRestUpdate(s.readers, r, SearchNext(s, r, q));
    if Reading(s.readers[r]) {
      SearchGoesOn(s, r, q);
    }
  }

  /**
   A search that waits can take the lock exactly when no builder needs another step to let go of it, whoever else
   reads; and until then the builder that holds it can take one.
   */
  lemma ReaderLockIsFree(s: State, r: nat)
    requires Excluded(s) && r < |s.readers| && s.readers[r].Waiting?
    ensures SearchEnabled(s, r, RLock) <==> SwapRest(s.subscriber) + SwapRest(s.initiator) == 0
    ensures !SearchEnabled(s, r, RLock) ==> exists b, own :: Writing(BuilderOf(s, b)) && BuildEnabled(s, b, own)
  {
    forall b | Writing(BuilderOf(s, b))
      ensures exists own :: BuildEnabled(s, b, own)
    {
      WritersLetGo(s, b, Lock);
    }
    if !SearchEnabled(s, r, RLock) {
      assert Writing(BuilderOf(s, Subscriber)) || Writing(BuilderOf(s, Initiator));
    }
  }

  /** How many of the actions i..k were taken by somebody who held the lock. */
  ghost function HolderSteps(states: seq<State>, actions: seq<Action>, i: nat, k: nat): nat
    requires i <= k <= |actions| && |states| == |actions| + 1
    decreases k
  {
    if i == k then 0
    else HolderSteps(states, actions, i, k - 1) + (if ByHolder(states[k - 1], actions[k - 1]) then 1 else 0)
  }

  /**
   A builder that waits gets its chance: while nobody new takes the lock, those who hold it take no more steps
   than they needed when the wait began; as long as the builder cannot lock, one of them can move; and it can
   lock as soon as they need none.
   */
  lemma LockComesFree(
    table: Table, readers: nat, states: seq<State>, actions: seq<Action>, i: nat, k: nat, b: Who)
    requires IsRun(table, readers, states, actions) && i <= k <= |actions|
    requires forall j :: i <= j < k ==> !TakesLock(actions[j])
    requires BuilderOf(states[k], b).Built?
    ensures HolderSteps(states, actions, i, k) + HoldRest(states[k]) <= HoldRest(states[i])
    ensures BuildEnabled(states[k], b, Lock) <==> HoldRest(states[k]) == 0
    ensures !BuildEnabled(states[k], b, Lock) ==> exists a :: ByHolder(states[k], a) && Enabled(states[k], a)
  {
    forall j: nat | i <= j < k
      ensures HolderSpends(states, actions, j)
    {
      RunHolderSpends(table, readers, states, actions, j);
    }
    HoldersSpend(states, actions, i, k);
    RunInvariant(table, readers, states, actions, k);
    HolderMoves(states[k], b);
  }

  ghost predicate HolderSpends(states: seq<State>, actions: seq<Action>, j: nat)
    requires j < |actions| && |states| == |actions| + 1
  {
    (if ByHolder(states[j], actions[j]) then 1 else 0) + HoldRest(states[j + 1]) <= HoldRest(states[j])
  }

  lemma {:induction false} HoldersSpend(states: seq<State>, actions: seq<Action>, i: nat, k: nat)
    requires i <= k <= |actions| && |states| == |actions| + 1
    requires forall j: nat :: i <= j < k ==> HolderSpends(states, actions, j)
    ensures HolderSteps(states, actions, i, k) + HoldRest(states[k]) <= HoldRest(states[i])
    decreases k
  {
    if i < k {
      HoldersSpend(states, actions, i, k - 1);
      assert HolderSpends(states, actions, k - 1);
    }
  }

  lemma RunHolderSpends(table: Table, readers: nat, states: seq<State>, actions: seq<Action>, j: nat)
    requires IsRun(table, readers, states, actions) && j < |actions| && !TakesLock(actions[j])
    ensures HolderSpends(states, actions, j)
  {
    RunUntorn(table, readers, states, actions, j);
    assert Enabled(states[j], actions[j]);
    HoldersLetGo(states[j], actions[j]);
  }

  lemma LockIsFree(s: State, b: Who)
    requires BuilderOf(s, b).Built?
    ensures BuildEnabled(s, b, Lock) <==> HoldRest(s) == 0
  {
    NobodyReads(s.readers);
    assert Writing(BuilderOf(s, Other(b))) <==> SwapRest(BuilderOf(s, Other(b))) > 0;
  }

  lemma HolderMoves(s: State, b: Who)
    requires Untorn(s) && BuilderOf(s, b).Built?
    ensures BuildEnabled(s, b, Lock) <==> HoldRest(s) == 0
    ensures HoldRest(s) != 0 ==> exists a :: ByHolder(s, a) && Enabled(s, a)
  {
    LockIsFree(s, b);
    if r :| 0 <= r < |s.readers| && Reading(s.readers[r]) {
      var q := NextOwnStep(s, r);
      assert ByHolder(s, Search(r, q)) && Enabled(s, Search(r, q));
    } else if Writing(BuilderOf(s, Other(b))) {
      WritersLetGo(s, Other(b), Lock);
      var step :| BuildEnabled(s, Other(b), step);
      assert ByHolder(s, Build(Other(b), step)) && Enabled(s, Build(Other(b), step));
    }
  }

  // ----- what becomes of the messages -----

  /** How many of the first `k` steps published, delivered and lost a message, and how many began a build for one. */
  datatype Tally = Tally(published: nat, delivered: nat, lost: nat, builds: nat)

  function Tallied(t: Tally, a: Action): Tally {
    if a == Env(Publish) then t.(published := t.published + 1)
    else if a.Env? && a.o.Deliver? then t.(delivered := t.delivered + 1)
    else if a.Env? && a.o.Lose? then t.(lost := t.lost + 1)
    else if a == Build(Subscriber, Wake) then t.(builds := t.builds + 1)
    else t
  }

  function TallyOf(actions: seq<Action>, k: nat): Tally
    requires k <= |actions|
  {
    if k == 0 then Tally(0, 0, 0, 0) else Tallied(TallyOf(actions, k - 1), actions[k - 1])
  }

  /** The records agree with the tally. */
  ghost predicate Counted(s: State, t: Tally) {
    t.published == |s.inflight| + t.delivered + t.lost && s.past.deliveries == t.delivered && s.past.builds == t.builds
  }

  lemma OutsideCounted(s: State, o: Outside, t: Tally)
    requires OutsideEnabled(s, o) && Counted(s, t)
    ensures Counted(OutsideNext(s, o), Tallied(t, Env(o)))
  {
  }

  lemma StepCounted(s: State, a: Action, t: Tally)
    requires Enabled(s, a) && Counted(s, t)
    ensures Counted(Next(s, a), Tallied(t, a))
  {
    match a
    case Env(o) => OutsideCounted(s, o, t);
    case Build(_, _) =>
    case Search(_, _) =>
  }

  /**
   No message comes from nowhere or goes anywhere else: each one published is on its way, delivered or lost, once; and
   the subscriber begins a build for at most as many as were delivered.
   */
  lemma {:induction false} MessagesAccounted(
    table: Table, readers: nat, states: seq<State>, actions: seq<Action>, k: nat)
    requires IsRun(table, readers, states, actions) && k <= |actions|
    ensures Counted(states[k], TallyOf(actions, k))
    ensures TallyOf(actions, k).builds <= TallyOf(actions, k).delivered
  {
    if k > 0 {
      MessagesAccounted(table, readers, states, actions, k - 1);
      assert Enabled(states[k - 1], actions[k - 1]) && states[k - 1 + 1] == Next(states[k - 1], actions[k - 1]);
      StepCounted(states[k - 1], actions[k - 1], TallyOf(actions, k - 1));
    }
    RunInvariant(table, readers, states, actions, k);
  }

  // ----- from a delivery to the installed index -----

  /** How many of the actions i..k are builder `b`'s. */
  function OwnBuilds(actions: seq<Action>, b: Who, i: nat, k: nat): nat
    requires i <= k <= |actions|
    decreases k
  {
    if i == k then 0
    else OwnBuilds(actions, b, i, k - 1) + (if actions[k - 1].Build? && actions[k - 1].b == b then 1 else 0)
  }

  /** How many own steps separate a woken builder from its List. */
  function ListRest(builder: Builder): nat {
    match builder
    case Idle => 1
    case Listing => 0
    case Built(_, _) => 5
    case Locked(_, _) => 4
    case HalfSwapped(_, _) => 3
    case Swapped(_, _) => 2
    case Stopped => 0
  }

  /** How many own steps separate a builder that has listed from having swapped that in. */
  function InstallRest(builder: Builder): nat {
    if builder.Built? then 3 else if builder.Locked? then 2 else if builder.HalfSwapped? then 1 else 0
  }

  /** The subscriber is woken and busy with something else. */
  predicate Woken(s: State) {
    s.trigger && !s.subscriber.Listing? && !s.subscriber.Stopped?
  }

  lemma WokenAdvances(s: State, a: Action)
    requires Enabled(s, a) && Woken(s)
    ensures var t := Next(s, a);
            && (t.trigger || t.subscriber.Listing?)
            && (if a.Build? && a.b.Subscriber? then ListRest(t.subscriber) < ListRest(s.subscriber)
                else t.subscriber == s.subscriber)
  {
    match a
    case Env(_) =>
    case Build(_, _) =>
    case Search(_, _) =>
  }

  lemma PendingAdvances(s: State, a: Action, b: Who)
    requires Enabled(s, a) && Pending(BuilderOf(s, b))
    ensures var before, after := BuilderOf(s, b), BuilderOf(Next(s, a), b);
            && (if a.Build? && a.b == b then InstallRest(after) < InstallRest(before) else after == before)
            && (if Pending(after) then after.version == before.version
                else Next(s, a).past.version == before.version)
  {
    match a
    case Env(_) =>
    case Build(_, _) =>
    case Search(_, _) =>
  }

  /**
   A builder that is neither waiting for the lock nor for a wake-up can take a step of its own; and its List may fail
   or bring the current table in whatever order.
   */
  lemma BuilderMoves(s: State, b: Who)
    requires s.history != [] && !BuilderOf(s, b).Stopped? && !BuilderOf(s, b).Built?
    requires BuilderOf(s, b).Idle? && b.Subscriber? ==> s.trigger
    ensures exists own :: BuildEnabled(s, b, own) && !own.Stop?
    ensures BuilderOf(s, b).Listing? ==>
              BuildEnabled(s, b, ListFail)
              && forall rows :: IsListing(rows, s.history[Latest(s)]) ==> BuildEnabled(s, b, ListOk(rows))
  {
    var builder := BuilderOf(s, b);
    if builder.Idle? {
      assert BuildEnabled(s, b, Wake);
    } else if builder.Listing? {
      assert BuildEnabled(s, b, ListFail);
    } else {
      WritersLetGo(s, b, Lock);
      var own :| BuildEnabled(s, b, own);
      assert !own.Stop?;
    }
  }

  /** The step out of state `j` costs a woken subscriber one of the own steps it has left, if it is its own. */
  ghost predicate WokenSpends(states: seq<State>, actions: seq<Action>, j: nat)
    requires j < |actions| && |states| == |actions| + 1
  {
    Woken(states[j]) ==>
      && (states[j + 1].trigger || states[j + 1].subscriber.Listing?)
      && (if actions[j].Build? && actions[j].b.Subscriber? then 1 else 0) + ListRest(states[j + 1].subscriber)
         <= ListRest(states[j].subscriber)
  }

  lemma RunWokenSpends(table: Table, readers: nat, states: seq<State>, actions: seq<Action>, j: nat)
    requires IsRun(table, readers, states, actions) && j < |actions|
    ensures WokenSpends(states, actions, j)
  {
    assert Enabled(states[j], actions[j]);
    if Woken(states[j]) {
      WokenAdvances(states[j], actions[j]);
    }
  }

  lemma {:induction false} WokenStepsSpend(states: seq<State>, actions: seq<Action>, i: nat, k: nat)
    requires i <= k <= |actions| && |states| == |actions| + 1 && (states[i].trigger || states[i].subscriber.Listing?)
    requires forall j :: i <= j < k ==> !states[j].subscriber.Listing? && !states[j].subscriber.Stopped?
    requires forall j: nat :: i <= j < k ==> WokenSpends(states, actions, j)
    ensures OwnBuilds(actions, Subscriber, i, k) + ListRest(states[k].subscriber) <= ListRest(states[i].subscriber)
    ensures states[k].trigger || states[k].subscriber.Listing?
    decreases k
  {
    if i < k {
      WokenStepsSpend(states, actions, i, k - 1);
      assert WokenSpends(states, actions, k - 1);
    }
  }

  /**
   What a woken subscriber can do: its next step, unless it waits for the lock; then it can lock exactly when no
   holder needs another step, and until then some holder can take one.
   */
  ghost predicate CanGoOn(s: State) {
    if !s.subscriber.Built? then exists own :: BuildEnabled(s, Subscriber, own) && !own.Stop?
    else
      && (BuildEnabled(s, Subscriber, Lock) <==> HoldRest(s) == 0)
      && (HoldRest(s) != 0 ==> exists a :: ByHolder(s, a) && Enabled(s, a))
  }

  lemma WokenGoesOn(s: State)
    requires Untorn(s) && Woken(s)
    ensures CanGoOn(s)
  {
    if s.subscriber.Built? {
      HolderMoves(s, Subscriber);
    } else {
      BuilderMoves(s, Subscriber);
    }
  }

  /**
   From state `i` to state `k` the subscriber has taken at most five steps of its own; if it is neither stopped nor
   about to List, it has taken fewer, the trigger is full, and it can go on.
   */
  ghost predicate FollowedUp(states: seq<State>, actions: seq<Action>, i: nat, k: nat)
    requires i <= k <= |actions| && |states| == |actions| + 1
  {
    && OwnBuilds(actions, Subscriber, i, k) <= 5
    && (!states[k].subscriber.Listing? && !states[k].subscriber.Stopped? ==>
          OwnBuilds(actions, Subscriber, i, k) < 5 && states[k].trigger && CanGoOn(states[k]))
  }

  lemma WokenIsFollowedUp(states: seq<State>, actions: seq<Action>, i: nat, k: nat)
    requires i <= k <= |actions| && |states| == |actions| + 1 && states[i].trigger
    requires forall j :: i <= j < k ==> !states[j].subscriber.Listing? && !states[j].subscriber.Stopped?
    requires forall j: nat :: i <= j < k ==> WokenSpends(states, actions, j)
    requires Woken(states[k]) ==> CanGoOn(states[k])
    ensures FollowedUp(states, actions, i, k)
  {
    WokenStepsSpend(states, actions, i, k);
  }

  /** A delivery is followed up until the subscriber stops or comes to its next List. */
  lemma DeliveryLeadsToList(
    table: Table, readers: nat, states: seq<State>, actions: seq<Action>, i: nat, k: nat)
    requires IsRun(table, readers, states, actions) && i < k <= |actions|
    requires actions[i].Env? && actions[i].o.Deliver?
    requires forall j :: i < j < k ==> !states[j].subscriber.Listing? && !states[j].subscriber.Stopped?
    ensures FollowedUp(states, actions, i + 1, k)
  {
    DeliveryWakes(table, readers, states, actions, i);
    forall j: nat | i + 1 <= j < k
      ensures WokenSpends(states, actions, j)
    {
      RunWokenSpends(table, readers, states, actions, j);
    }
    if Woken(states[k]) {
      RunWokenGoesOn(table, readers, states, actions, k);
    }
    WokenIsFollowedUp(states, actions, i + 1, k);
  }

  lemma RunWokenGoesOn(table: Table, readers: nat, states: seq<State>, actions: seq<Action>, k: nat)
    requires IsRun(table, readers, states, actions) && k <= |actions| && Woken(states[k])
    ensures CanGoOn(states[k])
  {
    RunUntorn(table, readers, states, actions, k);
    WokenGoesOn(states[k]);
  }

  /** The step out of state `j` costs a builder with a listing one of its own steps, if it is its own. */
  ghost predicate PendingSpends(states: seq<State>, actions: seq<Action>, b: Who, j: nat)
    requires j < |actions| && |states| == |actions| + 1
  {
    var before, after := BuilderOf(states[j], b), BuilderOf(states[j + 1], b);
    Pending(before) ==>
      && (if actions[j].Build? && actions[j].b == b then 1 else 0) + InstallRest(after) <= InstallRest(before)
      && (if Pending(after) then after.version == before.version else states[j + 1].past.version == before.version)
  }

  lemma RunPendingSpends(table: Table, readers: nat, states: seq<State>, actions: seq<Action>, b: Who, j: nat)
    requires IsRun(table, readers, states, actions) && j < |actions|
    ensures PendingSpends(states, actions, b, j)
  {
    assert Enabled(states[j], actions[j]);
    if Pending(BuilderOf(states[j], b)) {
      PendingAdvances(states[j], actions[j], b);
    }
  }

  /**
   From state `i` to state `k` the builder has taken at most the steps its listing needs to get installed; it has
   installed it, or still holds it.
   */
  ghost predicate BeingInstalled(states: seq<State>, actions: seq<Action>, b: Who, i: nat, k: nat)
    requires i <= k <= |actions| && |states| == |actions| + 1 && Pending(BuilderOf(states[i], b))
  {
    var before, after := BuilderOf(states[i], b), BuilderOf(states[k], b);
    && OwnBuilds(actions, b, i, k) + InstallRest(after) <= InstallRest(before) <= 3
    && (if Pending(after) then after.version == before.version else states[k].past.version == before.version)
  }

  lemma {:induction false} PendingStepsSpend(states: seq<State>, actions: seq<Action>, b: Who, i: nat, k: nat)
    requires i <= k <= |actions| && |states| == |actions| + 1 && Pending(BuilderOf(states[i], b))
    requires forall j :: i <= j < k ==> Pending(BuilderOf(states[j], b))
    requires forall j: nat :: i <= j < k ==> PendingSpends(states, actions, b, j)
    ensures BeingInstalled(states, actions, b, i, k)
    decreases k
  {
    if i < k {
      PendingStepsSpend(states, actions, b, i, k - 1);
      assert PendingSpends(states, actions, b, k - 1);
    }
  }

  /** A listing is installed by its builder's next three steps, whatever the others do. */
  lemma ListingGetsInstalled(
    table: Table, readers: nat, states: seq<State>, actions: seq<Action>, b: Who, i: nat, k: nat)
    requires IsRun(table, readers, states, actions) && i <= k <= |actions|
    requires Pending(BuilderOf(states[i], b)) && forall j :: i <= j < k ==> Pending(BuilderOf(states[j], b))
    ensures BeingInstalled(states, actions, b, i, k)
  {
    forall j: nat | i <= j < k
      ensures PendingSpends(states, actions, b, j)
    {
      RunPendingSpends(table, readers, states, actions, b, j);
    }
    PendingStepsSpend(states, actions, b, i, k);
  }
}
