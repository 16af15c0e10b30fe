/** When the index can go stale: exactly when, what the stale index then stands for, and a run that shows it. */
module Staleness {
  import opened Lists
  import opened ComicsTable
  import opened InvertedIndex
  import opened Propagation
  import opened PropagationRuns

  // ----- continuations -----

  lemma PlaysFirst(s: State, a: Action, t: State, after: seq<Action>, u: State)
    requires Enabled(s, a) && t == Next(s, a) && Plays(t, after, u)
    ensures Plays(s, [a] + after, u)
  {
    assert ([a] + after)[1..] == after;
  }

  lemma {:induction false} PlaysOn(s: State, first: seq<Action>, t: State, after: seq<Action>, u: State)
    requires Plays(s, first, t) && Plays(t, after, u)
    ensures Plays(s, first + after, u)
    decreases |first|
  {
    if first == [] {
      assert first + after == after;
    } else {
      var next := Next(s, first[0]);
      PlaysOn(next, first[1..], t, after, u);
      PlaysFirst(s, first[0], next, first[1..] + after, u);
      assert [first[0]] + (first[1..] + after) == first + after;
    }
  }

  lemma {:induction false} PlaysUntorn(s: State, actions: seq<Action>, t: State)
    requires Untorn(s) && Plays(s, actions, t)
    ensures Untorn(t)
    decreases |actions|
  {
    if actions != [] {
      StepUntorn(s, actions[0]);
      PlaysUntorn(Next(s, actions[0]), actions[1..], t);
    }
  }

  /** Nothing is listed on the way. */
  ghost predicate NoLists(actions: seq<Action>) {
    forall i :: 0 <= i < |actions| ==> !(actions[i].Build? && (actions[i].step.ListOk? || actions[i].step.ListFail?))
  }

  /** The subscriber lists nothing on the way. */
  ghost predicate NoSubscriberLists(actions: seq<Action>) {
    forall i :: 0 <= i < |actions| ==> !SubscriberLists(actions[i])
  }

  /** A holder of the lock moves; `b`, who waits, keeps its listing, and nothing outside the swap changes. */
  lemma HolderStep(s: State, b: Who) returns (a: Action)
    requires Untorn(s) && BuilderOf(s, b).Built? && !BuildEnabled(s, b, Lock)
    ensures Enabled(s, a) && ByHolder(s, a) && NoLists([a])
    ensures var t := Next(s, a);
            && Untorn(t) && BuilderOf(t, b) == BuilderOf(s, b) && HoldRest(t) < HoldRest(s)
            && t.history == s.history && t.trigger == s.trigger && t.inflight == s.inflight
            && (!Writing(BuilderOf(s, Other(b))) ==> t == s.(readers := t.readers))
  {
    HolderMoves(s, b);
    a :| ByHolder(s, a) && Enabled(s, a);
    StepUntorn(s, a);
    HoldersLetGo(s, a);
  }

  /** All those who hold the lock can let go of it before anything else happens. */
  lemma {:induction false} FreeLock(s: State, b: Who) returns (actions: seq<Action>, t: State)
    requires Untorn(s) && BuilderOf(s, b).Built?
    ensures Plays(s, actions, t) && NoLists(actions)
    ensures Untorn(t) && BuildEnabled(t, b, Lock) && BuilderOf(t, b) == BuilderOf(s, b)
    ensures t.history == s.history && t.trigger == s.trigger && t.inflight == s.inflight
    ensures !Writing(BuilderOf(s, Other(b))) ==> t == s.(readers := t.readers)
    decreases HoldRest(s)
  {
    if BuildEnabled(s, b, Lock) {
      actions, t := [], s;
    } else {
      var a := HolderStep(s, b);
      var more;
      more, t := FreeLock(Next(s, a), b);
      PlaysFirst(s, a, Next(s, a), more, t);
      actions := [a] + more;
    }
  }

  // ----- swapping -----

  /** A builder swaps in what it listed. */
  function SwapIn(b: Who): seq<Action> {
    [Build(b, Lock)] + ([Build(b, SwapIndex)] + ([Build(b, SwapComics)] + [Build(b, Unlock)]))
  }

  /** A swap from start to end. */
  function Installed(s: State, b: Who): State
    requires BuilderOf(s, b).Built?
  {
    var builder := BuilderOf(s, b);
    Put(s, b, Idle).(index := IndexOf(builder.rows), comics := CatalogueOf(TableOf(builder.rows)),
                     past := s.past.(version := builder.version, rows := builder.rows,
                       newest := if builder.version > s.past.newest then builder.version else s.past.newest))
  }

  lemma PlaySwapIn(s: State, b: Who)
    requires BuildEnabled(s, b, Lock)
    ensures Plays(s, SwapIn(b), Installed(s, b))
  {
    var s1 := Next(s, Build(b, Lock));
    var s2 := Next(s1, Build(b, SwapIndex));
    var s3 := Next(s2, Build(b, SwapComics));
    var s4 := Next(s3, Build(b, Unlock));
    assert s4 == Installed(s, b);
    assert Plays(s4, [], s4);
    PlaysFirst(s3, Build(b, Unlock), s4, [], s4);
    assert [Build(b, Unlock)] + [] == [Build(b, Unlock)];
    PlaysFirst(s2, Build(b, SwapComics), s3, [Build(b, Unlock)], s4);
    PlaysFirst(s1, Build(b, SwapIndex), s2, [Build(b, SwapComics)] + [Build(b, Unlock)], s4);
    PlaysFirst(s, Build(b, Lock), s1, [Build(b, SwapIndex)] + ([Build(b, SwapComics)] + [Build(b, Unlock)]), s4);
  }

  /** A builder that waits for the lock gets it, and swaps in. */
  lemma InstallBuilt(s: State, b: Who) returns (actions: seq<Action>, t: State)
    requires Untorn(s) && BuilderOf(s, b).Built?
    ensures Plays(s, actions, t) && NoLists(actions)
    ensures t.past.version == BuilderOf(s, b).version
    ensures !Writing(BuilderOf(s, Other(b))) ==>
              t == Installed(s, b).(readers := t.readers) && Untorn(t)
              && forall r :: 0 <= r < |t.readers| ==> !Reading(t.readers[r])
  {
    var free;
    actions, free := FreeLock(s, b);
    PlaySwapIn(free, b);
    t := Installed(free, b);
    PlaysOn(s, actions, free, SwapIn(b), t);
    actions := actions + SwapIn(b);
    SwapInUntorn(free, b);
  }

  /** A builder with a listing can get it installed, whoever holds the lock. */
  lemma CanInstall(s: State, b: Who) returns (actions: seq<Action>, t: State)
    requires Untorn(s) && Pending(BuilderOf(s, b))
    ensures Plays(s, actions, t) && NoLists(actions)
    ensures t.past.version == BuilderOf(s, b).version
  {
    if BuilderOf(s, b).Built? {
      actions, t := InstallBuilt(s, b);
    } else {
      actions, t := FinishSwap(s, b);
    }
  }

  lemma SwapInUntorn(s: State, b: Who)
    requires Untorn(s) && BuildEnabled(s, b, Lock)
    ensures Untorn(Installed(s, b))
  {
    PlaySwapIn(s, b);
    PlaysUntorn(s, SwapIn(b), Installed(s, b));
  }

  /** A swap begun is completed by its builder alone. */
  lemma FinishSwap(s: State, b: Who) returns (actions: seq<Action>, t: State)
    requires BuilderOf(s, b).Locked? || BuilderOf(s, b).HalfSwapped?
    ensures Plays(s, actions, t) && NoLists(actions)
    ensures t.past.version == BuilderOf(s, b).version && !Pending(BuilderOf(t, b))
    ensures BuilderOf(t, Other(b)) == BuilderOf(s, Other(b)) && t.trigger == s.trigger
    decreases BuilderOf(s, b).Locked?
  {
    if BuilderOf(s, b).HalfSwapped? {
      t := Next(s, Build(b, SwapComics));
      assert Plays(t, [], t);
      PlaysFirst(s, Build(b, SwapComics), t, [], t);
      actions := [Build(b, SwapComics)] + [];
    } else {
      var next := Next(s, Build(b, SwapIndex));
      actions, t := FinishSwap(next, b);
      PlaysFirst(s, Build(b, SwapIndex), next, actions, t);
      actions := [Build(b, SwapIndex)] + actions;
    }
  }

  // ----- when the installed version can fall -----

  /** Some builder holds a listing older than the installed one. */
  ghost predicate HoldsOlder(s: State, b: Who, v: int) {
    Pending(BuilderOf(s, b)) && BuilderOf(s, b).version < v
  }

  /** Some continuation installs a version below `v`. */
  ghost predicate CanFallBelow(s: State, v: int) {
    exists actions, t :: Plays(s, actions, t) && t.past.version < v
  }

  /** What is installed is not below `v`, and nobody holds a listing that is. */
  ghost predicate NothingBelow(s: State, v: int) {
    v <= s.past.version && v <= Latest(s) && !HoldsOlder(s, Subscriber, v) && !HoldsOlder(s, Initiator, v)
  }

  lemma NothingOlderBuild(s: State, b: Who, step: BuildStep, v: int)
    requires BuildEnabled(s, b, step) && NothingBelow(s, v)
    ensures NothingBelow(BuildNext(s, b, step), v)
  {
  }

  lemma NothingOlderStep(s: State, a: Action, v: int)
    requires Enabled(s, a) && NothingBelow(s, v)
    ensures NothingBelow(Next(s, a), v)
  {
    match a
    case Env(_) =>
    case Build(b, step) => NothingOlderBuild(s, b, step, v);
    case Search(_, _) =>
  }

  lemma {:induction false} NothingOlder(s: State, actions: seq<Action>, t: State, v: int)
    requires Plays(s, actions, t) && NothingBelow(s, v)
    ensures v <= t.past.version
    decreases |actions|
  {
    if actions != [] {
      NothingOlderStep(s, actions[0], v);
      NothingOlder(Next(s, actions[0]), actions[1..], t, v);
    }
  }

  /**
   Exactly when the installed index can be replaced by an older one, by whatever is still to come: when one of the
   builders holds a listing older than the installed one.
   */
  lemma FallsIffOlderHeld(s: State)
    requires Invariant(s)
    ensures CanFallBelow(s, s.past.version) <==> exists b :: HoldsOlder(s, b, s.past.version)
  {
    if b :| HoldsOlder(s, b, s.past.version) {
      var actions, t := CanInstall(s, b);
      assert Plays(s, actions, t) && t.past.version < s.past.version;
    } else if CanFallBelow(s, s.past.version) {
      var actions, t :| Plays(s, actions, t) && t.past.version < s.past.version;
      NothingOlder(s, actions, t, s.past.version);
      assert false;
    }
  }

  // ----- when the index can come to rest stale -----

  /** Without another List of the subscriber's, all can come to rest on a version older than its last one. */
  ghost predicate CanRestBelow(s: State, v: int) {
    exists actions, t :: Plays(s, actions, t) && NoSubscriberLists(actions) && Quiescent(t) && t.past.version < v
  }

  /** No rest is possible before the next List, or version `v` is on its way and cannot be overtaken. */
  ghost predicate Safe(s: State, v: int) {
    || Awaited(s)
    || (Heading(s, v) && (Pending(s.subscriber) ==> v <= s.subscriber.version))
  }

  lemma SafeStep(s: State, a: Action, v: int)
    requires Excluded(s) && Enabled(s, a) && !SubscriberLists(a) && Safe(s, v) && v <= Latest(s)
    ensures Excluded(Next(s, a)) && Safe(Next(s, a), v) && v <= Latest(Next(s, a))
  {
    if Awaited(s) {
      WaitingStays(s, a);
    } else {
      HeadingStays(s, a, v);
    }
    ExcludedStays(s, a);
    HistoryGrows(s, a);
  }

  lemma ExcludedStays(s: State, a: Action)
    requires Excluded(s) && Enabled(s, a)
    ensures Excluded(Next(s, a))
  {
    match a
    case Env(_) =>
    case Build(b, step) => BuildExcluded(s, b, step);
    case Search(_, _) =>
  }

  lemma {:induction false} SafeRests(s: State, actions: seq<Action>, t: State, v: int)
    requires Plays(s, actions, t) && NoSubscriberLists(actions)
    requires Excluded(s) && Safe(s, v) && v <= Latest(s)
    ensures Quiescent(t) ==> v <= t.past.version
    decreases |actions|
  {
    if actions != [] {
      SafeStep(s, actions[0], v);
      assert forall i :: 0 <= i < |actions[1..]| ==> actions[1..][i] == actions[i + 1];
      SafeRests(Next(s, actions[0]), actions[1..], t, v);
    }
  }

  /** The subscriber swaps first and the initiator last: all is at rest, on the initiator's listing. */
  lemma RestOnOlder(s: State) returns (actions: seq<Action>, t: State)
    requires Untorn(s) && s.subscriber.Built? && s.initiator.Built? && !s.trigger
    ensures Plays(s, actions, t) && NoLists(actions)
    ensures Quiescent(t) && t.past.version == s.initiator.version && t.history == s.history
    ensures t.past.delivered == s.past.delivered && t.past.lastFailed == s.past.lastFailed
    ensures t.inflight == s.inflight
    ensures t.index == IndexOf(s.initiator.rows) && t.comics == CatalogueOf(TableOf(s.initiator.rows))
  {
    var newer;
    actions, newer := InstallBuilt(s, Subscriber);
    var after;
    after, t := InstallBuilt(newer, Initiator);
    PlaysOn(s, actions, newer, after, t);
    actions := actions + after;
  }

  /**
   Exactly when the index can come to rest stale. The subscriber has listed and waits for the lock. Without another
   List of its own, all can come to rest on an older version if and only if the trigger is empty and the initiator
   is waiting for the lock with an older listing: only then can it swap after the subscriber.
   */
  lemma RestsStaleIffOutrun(s: State)
    requires Invariant(s) && s.subscriber.Built?
    ensures CanRestBelow(s, s.subscriber.version)
            <==> !s.trigger && s.initiator.Built? && s.initiator.version < s.subscriber.version
  {
    var v := s.subscriber.version;
    if !s.trigger && s.initiator.Built? && s.initiator.version < v {
      var actions, t := RestOnOlder(s);
      assert Plays(s, actions, t) && NoSubscriberLists(actions) && Quiescent(t) && t.past.version < v;
    } else if CanRestBelow(s, v) {
      var actions, t :| Plays(s, actions, t) && NoSubscriberLists(actions) && Quiescent(t) && t.past.version < v;
      SafeRests(s, actions, t, v);
      assert false;
    }
  }

  /** The same, seen when the subscriber lists: what can be checked before the listing is swapped in. */
  lemma ListsIntoStaleRest(s: State, rows: seq<Row>)
    requires Invariant(s) && Enabled(s, Build(Subscriber, ListOk(rows)))
    ensures CanRestBelow(Next(s, Build(Subscriber, ListOk(rows))), Latest(s))
            <==> !s.trigger && s.initiator.Built? && s.initiator.version < Latest(s)
  {
    var a := Build(Subscriber, ListOk(rows));
    StepUntorn(s, a);
    StepCovered(s, a);
    StepFresh(s, a);
    RestsStaleIffOutrun(Next(s, a));
  }

  // ----- when a failed List leaves the index behind -----

  /** No rest is possible before the next List, or what will be installed without one is version `v` or later. */
  ghost predicate LeftAt(s: State, v: int) {
    || Awaited(s)
    || (!Pending(s.subscriber) && v <= if Pending(s.initiator) then s.initiator.version else s.past.version)
  }

  lemma LeftAtStep(s: State, a: Action, v: int)
    requires Enabled(s, a) && !SubscriberLists(a) && LeftAt(s, v) && v <= Latest(s)
    ensures LeftAt(Next(s, a), v) && v <= Latest(Next(s, a))
  {
    if Awaited(s) {
      WaitingStays(s, a);
    } else {
      match a
      case Env(_) =>
      case Build(_, _) =>
      case Search(_, _) =>
    }
    HistoryGrows(s, a);
  }

  lemma {:induction false} LeftAtRests(s: State, actions: seq<Action>, t: State, v: int)
    requires Plays(s, actions, t) && NoSubscriberLists(actions) && LeftAt(s, v) && v <= Latest(s)
    ensures Quiescent(t) ==> v <= t.past.version
    decreases |actions|
  {
    if actions != [] {
      LeftAtStep(s, actions[0], v);
      assert forall i :: 0 <= i < |actions[1..]| ==> actions[1..][i] == actions[i + 1];
      LeftAtRests(Next(s, actions[0]), actions[1..], t, v);
    }
  }

  /** The initiator swaps in what it holds while the subscriber idles: all is at rest. */
  lemma InitiatorRests(s: State) returns (actions: seq<Action>, t: State)
    requires Untorn(s) && s.subscriber.Idle? && !s.trigger && Pending(s.initiator)
    ensures Plays(s, actions, t) && NoLists(actions)
    ensures Quiescent(t) && t.past.version == s.initiator.version
  {
    if s.initiator.Built? {
      actions, t := InstallBuilt(s, Initiator);
    } else {
      actions, t := FinishSwap(s, Initiator);
    }
  }

  /**
   Exactly when a failed List leaves the index behind. It has used up the wake-up and is not repeated. Without another
   List of the subscriber's, all can come to rest on a version older than the one it failed to read if and only if the
   trigger is empty and the listing the initiator is about to install, or else the installed one, is older.
   */
  lemma FailedListRestsStale(s: State)
    requires Invariant(s) && Enabled(s, Build(Subscriber, ListFail))
    ensures CanRestBelow(Next(s, Build(Subscriber, ListFail)), Latest(s))
            <==> !s.trigger && (if Pending(s.initiator) then s.initiator.version else s.past.version) < Latest(s)
  {
    var t := Next(s, Build(Subscriber, ListFail));
    StepUntorn(s, Build(Subscriber, ListFail));
    var v := Latest(s);
    if !s.trigger && (if Pending(s.initiator) then s.initiator.version else s.past.version) < v {
      var actions, u := [], t;
      if Pending(s.initiator) {
        actions, u := InitiatorRests(t);
      }
      assert Plays(t, actions, u) && NoSubscriberLists(actions) && Quiescent(u) && u.past.version < v;
    } else if CanRestBelow(t, v) {
      var actions, u :| Plays(t, actions, u) && NoSubscriberLists(actions) && Quiescent(u) && u.past.version < v;
      LeftAtRests(t, actions, u, v);
      assert false;
    }
  }

  // ----- what a stale index answers -----

  /** The search side cannot tell the tables apart. */
  ghost predicate SameToSearch(a: Table, b: Table) {
    && a.Keys == b.Keys
    && forall id :: id in a && id in b ==> a[id].url == b[id].url && WordsOf(a[id]) == WordsOf(b[id])
  }

  /** A pair that stands for one table stands for another exactly when the search side cannot tell them apart. */
  lemma RepresentsAnother(index: Index, comics: Catalogue, a: Table, b: Table)
    requires Represents(index, comics, a)
    ensures Represents(index, comics, b) <==> SameToSearch(a, b)
  {
    if Represents(index, comics, b) {
      assert CatalogueOf(a).Keys == a.Keys && CatalogueOf(b).Keys == b.Keys;
      forall id | id in a && id in b
        ensures a[id].url == b[id].url && WordsOf(a[id]) == WordsOf(b[id])
      {
        assert CatalogueOf(a)[id] == CatalogueOf(b)[id];
        forall word: string
          ensures word in WordsOf(a[id]) <==> word in WordsOf(b[id])
        {
          assert word in index && id in index[word] <==> word in WordsOf(a[id]);
          assert word in index && id in index[word] <==> word in WordsOf(b[id]);
        }
      }
    }
    if SameToSearch(a, b) {
      assert CatalogueOf(a) == CatalogueOf(b);
    }
  }

  /** A comic that only the newer table has under a word is missed by every answer to that word from the older one. */
  lemma OlderMisses(older: Table, newer: Table, word: string, id: int, limit: nat, stale: seq<Comics>, right: seq<Comics>)
    requires id in newer && word in WordsOf(newer[id])
    requires !(id in older && word in WordsOf(older[id]))
    requires |Matches({word}, newer)| <= limit
    requires IsAnswer(older, {word}, limit, stale) && IsAnswer(newer, {word}, limit, right)
    ensures Comics(id, newer[id].url) in right && id !in Ids(stale)
  {
    assert word in {word} * WordsOf(newer[id]);
    AnswerLength(newer, {word}, limit, right);
    assert id in ToSet(Ids(right));
    AnswerMember(newer, {word}, limit, right, Comics(id, newer[id].url));
    assert id in Ids(stale) ==> id in ToSet(Ids(stale));
    assert id in older ==> {word} * WordsOf(older[id]) == {};
  }

  /**
   The stale rest in general: from any state in which both wait for the lock, the initiator with the older listing,
   all can come to rest on an index that stands for the older table, hence not for the newer one unless the search
   side cannot tell them apart.
   */
  lemma StaleRest(s: State) returns (actions: seq<Action>, t: State)
    requires Invariant(s) && s.subscriber.Built? && s.initiator.Built? && !s.trigger
    ensures Plays(s, actions, t) && NoLists(actions)
    ensures Quiescent(t) && t.history == s.history && t.inflight == s.inflight
    ensures t.past.version == s.initiator.version
    ensures t.past.delivered == s.past.delivered && t.past.lastFailed == s.past.lastFailed
    ensures Represents(t.index, t.comics, t.history[s.initiator.version])
    ensures Represents(t.index, t.comics, t.history[s.subscriber.version])
            <==> SameToSearch(t.history[s.initiator.version], t.history[s.subscriber.version])
  {
    actions, t := RestOnOlder(s);
    IndexOfRepresents(s.initiator.rows, t.history[s.initiator.version]);
    RepresentsAnother(t.index, t.comics, t.history[s.initiator.version], t.history[s.subscriber.version]);
  }

  // ----- a run -----

  const EXAMPLE: Row := Row(1, "u", ["go"])

  lemma {:induction false} PlaysRun(
    table: Table, readers: nat, states: seq<State>, actions: seq<Action>, more: seq<Action>, t: State)
    returns (all: seq<State>)
    requires IsRun(table, readers, states, actions) && Plays(states[|actions|], more, t)
    ensures IsRun(table, readers, all, actions + more) && all[|actions + more|] == t
    decreases |more|
  {
    if more == [] {
      all := states;
      assert actions + more == actions;
    } else {
      var next := Next(states[|actions|], more[0]);
      var longer := actions + [more[0]];
      assert longer + more[1..] == actions + more;
      all := PlaysRun(table, readers, states + [next], longer, more[1..], t);
    }
  }

  lemma ExampleListings()
    ensures IsListing([], map[]) && IsListing([EXAMPLE], map[1 := EXAMPLE])
  {
    assert [EXAMPLE][..0] == [];
  }

  /** The initiator lists the empty table. */
  function Step1(): seq<Action> {
    [Build(Initiator, Wake)] + [Build(Initiator, ListOk([]))]
  }

  lemma PlayStep1()
    ensures Plays(Initial(map[], 0), Step1(), Initial(map[], 0).(initiator := Built(0, [])))
  {
    ExampleListings();
    var s := Initial(map[], 0);
    var s1 := Next(s, Build(Initiator, Wake));
    var s2 := Next(s1, Build(Initiator, ListOk([])));
    assert s2 == s.(initiator := Built(0, []));
    assert Plays(s2, [], s2);
    PlaysFirst(s1, Build(Initiator, ListOk([])), s2, [], s2);
    assert [Build(Initiator, ListOk([]))] + [] == [Build(Initiator, ListOk([]))];
    PlaysFirst(s, Build(Initiator, Wake), s1, [Build(Initiator, ListOk([]))], s2);
  }

  /** A comic is stored, announced, and the announcement delivered. */
  function Step2(): seq<Action> {
    [Env(Commit(map[1 := EXAMPLE]))] + ([Env(Publish)] + [Env(Deliver(1))])
  }

  function Told(): State {
    State([map[], map[1 := EXAMPLE]], multiset{}, true, Idle, Built(0, []), map[], map[], [],
          Record(1, -1, false, -1, -1, [], false, 1, 0))
  }

  lemma PlayStep2()
    ensures Plays(Initial(map[], 0).(initiator := Built(0, [])), Step2(), Told())
  {
    var s := Initial(map[], 0).(initiator := Built(0, []));
    var s1 := Next(s, Env(Commit(map[1 := EXAMPLE])));
    var s2 := Next(s1, Env(Publish));
    assert s2.inflight == multiset{1};
    var s3 := Next(s2, Env(Deliver(1)));
    assert s3 == Told();
    assert Plays(s3, [], s3);
    PlaysFirst(s2, Env(Deliver(1)), s3, [], s3);
    assert [Env(Deliver(1))] + [] == [Env(Deliver(1))];
    PlaysFirst(s1, Env(Publish), s2, [Env(Deliver(1))], s3);
    PlaysFirst(s, Env(Commit(map[1 := EXAMPLE])), s1, [Env(Publish)] + [Env(Deliver(1))], s3);
  }

  /** The subscriber lists the table with the comic. */
  function Step3(): seq<Action> {
    [Build(Subscriber, Wake)] + [Build(Subscriber, ListOk([EXAMPLE]))]
  }

  function BothListed(): State {
    Told().(trigger := false, subscriber := Built(1, [EXAMPLE]),
            past := Record(1, 1, false, -1, -1, [], true, 1, 1))
  }

  lemma PlayStep3()
    ensures Plays(Told(), Step3(), BothListed())
  {
    ExampleListings();
    var s := Told();
    var s1 := Next(s, Build(Subscriber, Wake));
    var s2 := Next(s1, Build(Subscriber, ListOk([EXAMPLE])));
    assert s2 == BothListed();
    assert Plays(s2, [], s2);
    PlaysFirst(s1, Build(Subscriber, ListOk([EXAMPLE])), s2, [], s2);
    assert [Build(Subscriber, ListOk([EXAMPLE]))] + [] == [Build(Subscriber, ListOk([EXAMPLE]))];
    PlaysFirst(s, Build(Subscriber, Wake), s1, [Build(Subscriber, ListOk([EXAMPLE]))], s2);
  }

  lemma RunBothListed() returns (states: seq<State>)
    ensures IsRun(map[], 0, states, Step1() + Step2() + Step3())
    ensures states[|Step1() + Step2() + Step3()|] == BothListed()
  {
    PlayStep1();
    PlayStep2();
    PlayStep3();
    states := PlaysRun(map[], 0, [Initial(map[], 0)], [], Step1(), Initial(map[], 0).(initiator := Built(0, [])));
    assert [] + Step1() == Step1();
    states := PlaysRun(map[], 0, states, Step1(), Step2(), Told());
    states := PlaysRun(map[], 0, states, Step1() + Step2(), Step3(), BothListed());
  }

  /** To a query for the example's word the table with the comic answers with it, and the empty one with nothing. */
  lemma ExampleAnswers(limit: nat, result: seq<Comics>)
    requires limit >= 1
    ensures IsAnswer(map[1 := EXAMPLE], {"go"}, limit, result) ==> result == [Comics(1, "u")]
    ensures IsAnswer(map[], {"go"}, limit, result) ==> result == []
  {
    assert EXAMPLE.words[0] == "go";
    assert {"go"} * WordsOf(EXAMPLE) == {"go"};
    var matches := Matches({"go"}, map[1 := EXAMPLE]);
    assert matches.Keys == {1};
    if IsAnswer(map[1 := EXAMPLE], {"go"}, limit, result) {
      assert |result| == 1;
      assert Ids(result)[0] in ToSet(Ids(result));
    }
    if IsAnswer(map[], {"go"}, limit, result) {
      assert Matches({"go"}, map[]).Keys == {};
    }
  }

  /**
   A run that ends stale: every message was delivered, every List succeeded, all is at rest, and the index stands
   for the empty table, so a search for the stored comic's word finds nothing although the comic is in the table.
   */
  lemma OverlapGoesStale() returns (states: seq<State>, actions: seq<Action>)
    ensures IsRun(map[], 0, states, actions)
    ensures var s := states[|actions|];
            && Quiescent(s) && s.inflight == multiset{} && !s.past.lastFailed && s.past.delivered == Latest(s)
            && s.history != [] && s.history[Latest(s)] == map[1 := EXAMPLE]
            && Represents(s.index, s.comics, map[]) && !Represents(s.index, s.comics, s.history[Latest(s)])
    ensures forall limit: nat, result :: limit >= 1 ==>
              (IsAnswer(map[1 := EXAMPLE], {"go"}, limit, result) ==> result == [Comics(1, "u")])
              && (IsAnswer(map[], {"go"}, limit, result) ==> result == [])
  {
    states := RunBothListed();
    actions := Step1() + Step2() + Step3();
    RunInvariant(map[], 0, states, actions, |actions|);
    var more, t := StaleRest(BothListed());
    states := PlaysRun(map[], 0, states, actions, more, t);
    actions := actions + more;
    var newer: Table := map[1 := EXAMPLE];
    assert 1 in newer.Keys;
    forall limit: nat, result | limit >= 1
      ensures IsAnswer(map[1 := EXAMPLE], {"go"}, limit, result) ==> result == [Comics(1, "u")]
      ensures IsAnswer(map[], {"go"}, limit, result) ==> result == []
    {
      ExampleAnswers(limit, result);
    }
  }
}
