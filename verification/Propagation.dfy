/**
 From the table to the answers: notifications travel to a one-slot trigger, the subscriber and the initiator
 rebuild the index from a fresh List outside the lock and swap it in under the write lock, searches read it
 under the read lock. Builders, readers, the broker and the writers of the table interleave freely.
 */
module Propagation {
  import opened Lists
  import opened ComicsTable
  import opened Ranking
  import opened InvertedIndex

  /** The two goroutines that call BuildIndex. */
  datatype Who = Subscriber | Initiator

  /** Where a builder stands in its loop and in BuildIndex; `version` counts the writes its List has seen. */
  datatype Builder =
    | Idle                                       // in its select
    | Stopped                                    // its context is done
    | Listing                                    // about to List
    | Built(version: nat, rows: seq<Row>)        // the new maps are ready, waiting for the lock
    | Locked(version: nat, rows: seq<Row>)       // holding the lock
    | HalfSwapped(version: nat, rows: seq<Row>)  // holding the lock, index assigned, comics not yet
    | Swapped(version: nat, rows: seq<Row>)      // holding the lock, both assigned

  /** Where a search stands in ISearch; `version` and `rows` record what was installed when it took the lock. */
  datatype Reader =
    | Away
    | Waiting(keywords: seq<string>, limit: nat)
    | Scoring(keywords: seq<string>, limit: nat, version: int, rows: seq<Row>, k: nat, scores: Scores)
    | Fetching(keywords: seq<string>, limit: nat, version: int, rows: seq<Row>,
               ids: seq<int>, j: nat, result: seq<Comics>)
    | Answered(keywords: seq<string>, limit: nat, version: int, rows: seq<Row>, result: seq<Comics>)

  /** What has happened so far; no step depends on it. */
  datatype Record = Record(
    delivered: int,            // the newest version a delivered message carried, -1 before the first
    looked: int,               // the version of the subscriber's last List, failed ones included, -1 before
    lastFailed: bool,          // that List failed
    version: int,              // the version last swapped in, -1 for the initial empty pair
    newest: int,               // the newest version ever swapped in
    rows: seq<Row>,            // the listing last swapped in
    outrun: bool,              // when that List was made, the initiator was waiting for the lock with an older one
    deliveries: nat,
    builds: nat)               // builds the subscriber has begun

  datatype State = State(
    history: seq<Table>,       // the table after each write, the current one last
    inflight: multiset<nat>,   // messages on their way, each with the version it was published at
    trigger: bool,             // the one-slot channel
    subscriber: Builder,
    initiator: Builder,
    index: Index,
    comics: Catalogue,
    readers: seq<Reader>,
    past: Record)

  /** The update service and the broker; a step elsewhere is one the search service does not see. */
  datatype Outside = Commit(table: Table) | Publish | Deliver(v: nat) | Lose(v: nat) | Elsewhere

  /** One builder: woken by the trigger or the ticker, it Lists and swaps; or its context is done. */
  datatype BuildStep = Wake | ListOk(rows: seq<Row>) | ListFail | Lock | SwapIndex | SwapComics | Unlock | Stop

  /** One search: under the read lock it counts keyword by keyword, ranks, and looks up comic by comic. */
  datatype SearchStep = Ask(keywords: seq<string>, limit: nat) | RLock | Count | Rank(ids: seq<int>) | Fetch | RUnlock

  datatype Action =
    | Env(o: Outside)
    | Build(b: Who, step: BuildStep)
    | Search(r: nat, q: SearchStep)

  function Initial(table: Table, readers: nat): State {
    State([table], multiset{}, false, Idle, Idle, map[], map[], seq(readers, i => Away),
          Record(-1, -1, false, -1, -1, [], false, 0, 0))
  }

  function BuilderOf(s: State, b: Who): Builder {
    if b.Subscriber? then s.subscriber else s.initiator
  }

  function Other(b: Who): Who {
    if b.Subscriber? then Initiator else Subscriber
  }

  function Put(s: State, b: Who, builder: Builder): State {
    if b.Subscriber? then s.(subscriber := builder) else s.(initiator := builder)
  }

  function Latest(s: State): int {
    |s.history| - 1
  }

  /** The builder holds the write lock. */
  predicate Writing(builder: Builder) {
    builder.Locked? || builder.HalfSwapped? || builder.Swapped?
  }

  /** The builder has a listing it has not swapped in completely. */
  predicate Pending(builder: Builder) {
    builder.Built? || builder.Locked? || builder.HalfSwapped?
  }

  /** The search holds the read lock. */
  predicate Reading(reader: Reader) {
    reader.Scoring? || reader.Fetching?
  }

  // ----- the steps -----

  ghost predicate OutsideEnabled(s: State, o: Outside) {
    match o
    case Commit(table) => WellFormed(table)
    case Publish => s.history != []
    case Deliver(v) => v in s.inflight && !s.subscriber.Stopped?
    case Lose(v) => v in s.inflight
    case Elsewhere => true
  }

  function OutsideNext(s: State, o: Outside): State
    requires OutsideEnabled(s, o)
  {
    match o
    case Commit(table) => s.(history := s.history + [table])
    case Publish => s.(inflight := s.inflight + multiset{Latest(s)})
    case Deliver(v) =>
      s.(inflight := s.inflight - multiset{v}, trigger := true,
         past := s.past.(deliveries := s.past.deliveries + 1,
                         delivered := if v > s.past.delivered then v else s.past.delivered))
    case Lose(v) => s.(inflight := s.inflight - multiset{v})
    case Elsewhere => s
  }

  ghost predicate BuildEnabled(s: State, b: Who, step: BuildStep) {
    var builder := BuilderOf(s, b);
    match step
    case Wake => builder.Idle? && (b.Subscriber? ==> s.trigger)
    case ListOk(rows) => builder.Listing? && s.history != [] && IsListing(rows, s.history[Latest(s)])
    case ListFail => builder.Listing?
    case Lock =>
      && builder.Built? && !Writing(BuilderOf(s, Other(b)))
      && forall r :: 0 <= r < |s.readers| ==> !Reading(s.readers[r])
    case SwapIndex => builder.Locked?
    case SwapComics => builder.HalfSwapped?
    case Unlock => builder.Swapped?
    case Stop => builder.Idle?
  }

  /** Where the builder stands after the step. */
  function Moved(s: State, b: Who, step: BuildStep): Builder
    requires BuildEnabled(s, b, step)
  {
    var builder := BuilderOf(s, b);
    match step
    case Wake => Listing
    case ListOk(rows) => Built(Latest(s), rows)
    case ListFail => Idle
    case Lock => Locked(builder.version, builder.rows)
    case SwapIndex => HalfSwapped(builder.version, builder.rows)
    case SwapComics => Swapped(builder.version, builder.rows)
    case Unlock => Idle
    case Stop => Stopped
  }

  /** What the step adds to the record. */
  function Recorded(s: State, b: Who, step: BuildStep): Record
    requires BuildEnabled(s, b, step)
  {
    if step.Wake? && b.Subscriber? then s.past.(builds := s.past.builds + 1)
    else if step.ListOk? && b.Subscriber? then
      s.past.(looked := Latest(s), lastFailed := false,
              outrun := s.initiator.Built? && s.initiator.version < Latest(s))
    else if step.ListFail? && b.Subscriber? then s.past.(looked := Latest(s), lastFailed := true)
    else if step.SwapComics? then
      var version := BuilderOf(s, b).version;
      s.past.(version := version, rows := BuilderOf(s, b).rows,
              newest := if version > s.past.newest then version else s.past.newest)
    else s.past
  }

  function BuildNext(s: State, b: Who, step: BuildStep): State
    requires BuildEnabled(s, b, step)
  {
    Put(s, b, Moved(s, b, step)).(
      trigger := s.trigger && !(step.Wake? && b.Subscriber?),
      index := if step.SwapIndex? then IndexOf(BuilderOf(s, b).rows) else s.index,
      comics := if step.SwapComics? then CatalogueOf(TableOf(BuilderOf(s, b).rows)) else s.comics,
      past := Recorded(s, b, step))
  }

  ghost predicate SearchEnabled(s: State, r: nat, q: SearchStep) {
    && r < |s.readers|
    && var reader := s.readers[r];
       match q
       case Ask(keywords, limit) => (reader.Away? || reader.Answered?) && NoDup(keywords)
       case RLock => reader.Waiting? && !Writing(s.subscriber) && !Writing(s.initiator)
       case Count => reader.Scoring? && reader.k < |reader.keywords|
       case Rank(ids) => reader.Scoring? && reader.k == |reader.keywords| && TopK(reader.scores, reader.limit, ids)
       case Fetch => reader.Fetching? && reader.j < |reader.ids|
       case RUnlock => reader.Fetching? && reader.j == |reader.ids|
  }

  function SearchNext(s: State, r: nat, q: SearchStep): Reader
    requires SearchEnabled(s, r, q)
  {
    var reader := s.readers[r];
    match q
    case Ask(keywords, limit) => Waiting(keywords, limit)
    case RLock => Scoring(reader.keywords, reader.limit, s.past.version, s.past.rows, 0, map[])
    case Count =>
      var word := reader.keywords[reader.k];
      var ids := if word in s.index then s.index[word] else [];
      reader.(k := reader.k + 1, scores := Bump(reader.scores, ids))
    case Rank(ids) => Fetching(reader.keywords, reader.limit, reader.version, reader.rows, ids, 0, [])
    case Fetch =>
      var id := reader.ids[reader.j];
      reader.(j := reader.j + 1, result := reader.result + (if id in s.comics then [s.comics[id]] else []))
    case RUnlock => Answered(reader.keywords, reader.limit, reader.version, reader.rows, reader.result)
  }

  ghost predicate Enabled(s: State, a: Action) {
    match a
    case Env(o) => OutsideEnabled(s, o)
    case Build(b, step) => BuildEnabled(s, b, step)
    case Search(r, q) => SearchEnabled(s, r, q)
  }

  function Next(s: State, a: Action): State
    requires Enabled(s, a)
  {
    match a
    case Env(o) => OutsideNext(s, o)
    case Build(b, step) => BuildNext(s, b, step)
    case Search(r, q) => s.(readers := s.readers[r := SearchNext(s, r, q)])
  }

  /** The actions are enabled one after the other from `s` on, and lead to `t`. */
  ghost predicate Plays(s: State, actions: seq<Action>, t: State)
    decreases |actions|
  {
    if actions == [] then s == t
    else Enabled(s, actions[0]) && Plays(Next(s, actions[0]), actions[1..], t)
  }

  ghost predicate IsRun(table: Table, readers: nat, states: seq<State>, actions: seq<Action>) {
    && WellFormed(table)
    && |states| == |actions| + 1
    && states[0] == Initial(table, readers)
    && forall i :: 0 <= i < |actions| ==> Enabled(states[i], actions[i]) && states[i + 1] == Next(states[i], actions[i])
  }

  // ----- no torn index -----

  /** The rows are what a List saw at that version; before the first swap there are none. */
  ghost predicate Seen(history: seq<Table>, version: int, rows: seq<Row>) {
    if version == -1 then rows == []
    else 0 <= version < |history| && IsListing(rows, history[version])
  }

  /** How far a search is with the snapshot it began with. */
  ghost predicate ReaderSound(history: seq<Table>, past: Record, reader: Reader) {
    match reader
    case Away => true
    case Waiting(keywords, _) => NoDup(keywords)
    case Scoring(keywords, limit, version, rows, k, scores) =>
      && NoDup(keywords) && k <= |keywords|
      && version == past.version && rows == past.rows
      && scores == Matches(ToSet(keywords[..k]), TableOf(rows))
    case Fetching(keywords, limit, version, rows, ids, j, result) =>
      && version == past.version && rows == past.rows
      && TopK(Matches(ToSet(keywords), TableOf(rows)), limit, ids)
      && j <= |ids| && result == Present(CatalogueOf(TableOf(rows)), ids[..j])
    case Answered(keywords, limit, version, rows, result) =>
      && Seen(history, version, rows)
      && IsAnswer(TableOf(rows), ToSet(keywords), limit, result)
  }

  ghost predicate BuilderSound(history: seq<Table>, past: Record, index: Index, builder: Builder) {
    && (Pending(builder) ==> builder.version < |history| && IsListing(builder.rows, history[builder.version]))
    && (builder.HalfSwapped? ==> index == IndexOf(builder.rows))
  }

  /** The lock keeps writers from each other and from readers. */
  ghost predicate Excluded(s: State) {
    && !(Writing(s.subscriber) && Writing(s.initiator))
    && (forall r :: 0 <= r < |s.readers| && Reading(s.readers[r]) ==>
          !Writing(s.subscriber) && !Writing(s.initiator))
  }

  /** Outside a swap both halves of the installed pair match, and they are what a List saw. */
  ghost predicate Matched(s: State) {
    && Seen(s.history, s.past.version, s.past.rows)
    && BuilderSound(s.history, s.past, s.index, s.subscriber)
    && BuilderSound(s.history, s.past, s.index, s.initiator)
    && (!s.subscriber.HalfSwapped? && !s.initiator.HalfSwapped? ==> s.index == IndexOf(s.past.rows))
    && s.comics == CatalogueOf(TableOf(s.past.rows))
  }

  ghost predicate ReadersSound(s: State) {
    forall r :: 0 <= r < |s.readers| ==> ReaderSound(s.history, s.past, s.readers[r])
  }

  ghost predicate Untorn(s: State) {
    s.history != [] && Excluded(s) && Matched(s) && ReadersSound(s)
  }

  lemma InitialUntorn(table: Table, readers: nat)
    ensures Untorn(Initial(table, readers))
  {
  }

  // ----- searches -----

  lemma CountSound(s: State, r: nat)
    requires Untorn(s) && SearchEnabled(s, r, Count)
    ensures ReaderSound(s.history, s.past, SearchNext(s, r, Count))
  {
    var q := s.readers[r];
    assert ReaderSound(s.history, s.past, q);
    var word := q.keywords[q.k];
    var ids := if word in s.index then s.index[word] else [];
    IndexOfRepresents(q.rows, TableOf(q.rows));
    assert IsPostingFor(ids, word, TableOf(q.rows));
    assert q.keywords[..q.k + 1] == q.keywords[..q.k] + [word];
    ToSetAppend(q.keywords[..q.k], word);
    BumpMatches(ToSet(q.keywords[..q.k]), word, TableOf(q.rows), ids);
  }

  lemma SearchSound(s: State, r: nat, q: SearchStep)
    requires Untorn(s) && SearchEnabled(s, r, q)
    ensures ReaderSound(s.history, s.past, SearchNext(s, r, q))
  {
    var reader := s.readers[r];
    assert ReaderSound(s.history, s.past, reader);
    match q
    case Ask(_, _) =>
    case RLock =>
      assert reader.keywords[..0] == [];
      assert Matches({}, TableOf(s.past.rows)) == map[];
    case Count => CountSound(s, r);
    case Rank(ids) =>
      assert reader.keywords[..reader.k] == reader.keywords;
      assert ids[..0] == [];
    case Fetch => FetchSound(s, r);
    case RUnlock => AnswerSound(s, r);
  }

  lemma FetchSound(s: State, r: nat)
    requires Untorn(s) && SearchEnabled(s, r, Fetch)
    ensures ReaderSound(s.history, s.past, SearchNext(s, r, Fetch))
  {
    var reader := s.readers[r];
    assert ReaderSound(s.history, s.past, reader);
    assert reader.ids[..reader.j + 1][..reader.j] == reader.ids[..reader.j];
  }

  /** Everything is looked up: what the search returns answers its query on the table it read. */
  lemma AnswerSound(s: State, r: nat)
    requires Untorn(s) && SearchEnabled(s, r, RUnlock)
    ensures ReaderSound(s.history, s.past, SearchNext(s, r, RUnlock))
  {
    var reader := s.readers[r];
    assert ReaderSound(s.history, s.past, reader);
    assert reader.ids[..reader.j] == reader.ids;
    PresentAnswers(TableOf(reader.rows), ToSet(reader.keywords), reader.limit, reader.ids);
  }

  lemma SearchUntorn(s: State, r: nat, q: SearchStep)
    requires Untorn(s) && SearchEnabled(s, r, q)
    ensures Untorn(s.(readers := s.readers[r := SearchNext(s, r, q)]))
  {
    SearchSound(s, r, q);
  }

  // ----- builders and the outside -----

  /** The searches at work do not notice that the history grows. */
  lemma OutsideUntorn(s: State, o: Outside)
    requires Untorn(s) && OutsideEnabled(s, o)
    ensures Untorn(OutsideNext(s, o))
  {
  }

  lemma BuildExcluded(s: State, b: Who, step: BuildStep)
    requires Excluded(s) && BuildEnabled(s, b, step)
    ensures Excluded(BuildNext(s, b, step))
  {
  }

  lemma BuildMatched(s: State, b: Who, step: BuildStep)
    requires Excluded(s) && Matched(s) && BuildEnabled(s, b, step)
    ensures Matched(BuildNext(s, b, step))
  {
  }

  /** A search at work sees the same pair; while a pair is being swapped there is no search at work. */
  lemma BuildKeepsReaders(s: State, b: Who, step: BuildStep)
    requires Excluded(s) && ReadersSound(s) && BuildEnabled(s, b, step)
    ensures ReadersSound(BuildNext(s, b, step))
  {
  }

  lemma StepUntorn(s: State, a: Action)
    requires Untorn(s) && Enabled(s, a)
    ensures Untorn(Next(s, a))
  {
    match a
    case Env(o) => OutsideUntorn(s, o);
    case Build(b, step) =>
      BuildExcluded(s, b, step);
      BuildMatched(s, b, step);
      BuildKeepsReaders(s, b, step);
    case Search(r, q) => SearchUntorn(s, r, q);
  }
}
