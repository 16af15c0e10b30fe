# Verification of the xkcd-search indexing pipeline

A Dafny 4.11 model of the part of the system that turns downloaded comics into search answers, with proofs of what
that part promises:

- the **words service**, which turns a phrase into duplicate-free keywords;
- the **search service**, which keeps an inverted index, answers ranked queries from it, and can answer the same
  queries slowly from the table;
- the **update service**, which finds the missing comics, downloads them with a cancellable worker pool, and lets
  one job at a time, update or drop, touch the table;
- the **propagation** between the two: notification, one-slot trigger, rebuild outside the lock, swap under it.

`dafny verify dfyconfig.toml` checks everything.

## How it is modelled

Code that works in place is imperative: `SearchService.Service`, `UpdateService.Service`, `Storage.DB` and the
words client are classes with the source's fields, and their methods have the source's loops. A call that leaves
the process goes through a `Send` of its adapter: whether an answer comes back is not up to the program, and each
request and its fate are kept in the adapter's ghost record `exchanges`. Contracts say which requests a method makes
and fail exactly when these do. Cancellation comes from a `Context` that the environment may cancel at any time. Each
method is proved against functions and predicates that say what its result means (`Keywords`, `IndexOf`, `Matches`,
`TopK`, `IsAnswer`, `Missing`, `Tracked`, `Vouched`), and what the source promises is proved about those.

Code that runs concurrently is a step relation, one action per shared-state access, and every interleaving is a
run: `WorkerPool` (producer, channel, workers, cancellation), `Jobs` (any number of callers over the `running`
flag, each with its own worker pool), `Propagation` (broker, trigger, two index builders, any number of searches
under the read-write lock) and `EndToEnd` (both services on one table). The select loops of the subscriber and the
initiator never end and consist only of such accesses, so they appear as the builder's steps and not as methods.
`UpdateService.Service.RunWorkers` drives the same pool steps from a loop that picks any enabled one.

| file | contents |
|---|---|
| `Lists`, `Results` | duplicate-free sequences, sums over sets; results, errors, records of requests |
| `Words`, `WordsClient` | the tokeniser and the normaliser; its client |
| `ComicsTable`, `Storage`, `Counters` | the table and its listings; the two adapters; the counters |
| `Ranking`, `InvertedIndex`, `SearchService`, `QueryAlgebra` | sorting and cutting; index, scores and answers; the service; joined queries |
| `MissingIds`, `WorkerPool`, `WorkerPoolRuns`, `UpdateService` | the gap; the pool's steps and invariants; its runs; the service |
| `Jobs`, `JobLog`, `JobRuns`, `JobSteps` | concurrent callers; the grammar of their log; whole runs; which steps results, events and pools stand for |
| `Propagation`, `PropagationRuns`, `Staleness` | index builders and searches; whole runs; when an index goes stale |
| `EndToEnd`, `Cancellation` | both services together; what a cancelled update leaves behind |

## Assumptions about the surroundings

- Ids are a primary key, so the table is a map from id to row, and each SQL statement is atomic. A SELECT without
  ORDER BY returns the rows in any order.
- A successful `Get(id)` of the comics site is about that id (the service stores the id in the reply), and its
  last id never falls. A failed INSERT inserted nothing. What the site has does not change during one call of
  `UpdateService.Service.Update`; in `Jobs` it may answer anything at any time.
- Letters, digits, lower-casing, stop words and stemming are uninterpreted functions (`Words.Language`); theorems
  that join texts by a blank assume only that a blank is no word character.
- The broker may delay, reorder and lose messages. What is proved about notifications is about delivered ones, or, where
  `EndToEnd` speaks of settled states, about runs in which it has lost none.
- A search limit is not negative, because slicing by it would panic; the callers in front of the service see to it.

## What turned out false

An index once fresh does not always stay so. Two goroutines rebuild it, each lists the table before it takes the
lock, and a slow one can swap in an older listing over a newer one. The exact conditions, each of which can be
checked before the swap it speaks of:

- The installed version can still fall iff some builder holds a listing older than it (`Staleness.FallsIffOlderHeld`).
- After the subscriber's List, and without another, all can come to rest on an older version iff the trigger was
  empty and the initiator was waiting for the lock with an older listing (`Staleness.ListsIntoStaleRest` at the List,
  `Staleness.RestsStaleIffOutrun` from then on). Otherwise every such rest is fresh
  (`PropagationRuns.FreshSinceLastList`), whatever overlapped before. After a successful List, a rest on an older
  version always comes after a newer one was installed (`PropagationRuns.FreshOnceAtRest`).
- A List that fails has used up the wake-up and is only logged. Without another, all can come to rest on a version
  older than the one it failed to read iff the trigger was empty and the version the initiator is about to install, or
  else the installed one, is older (`Staleness.FailedListRestsStale`).
- A pair that stands for an older table stands for the newer one iff they agree on ids, urls and words
  (`Staleness.RepresentsAnother`); otherwise comics are missed (`Staleness.OlderMisses`). `Staleness.OverlapGoesStale`
  is a run that ends with everything delivered, every List successful and all at rest, while a search for the word of
  the stored comic finds nothing.

A cancelled update leaves the index behind. It returns before it notifies, so what it wrote is announced only by a
later job's notification, if one comes (`EndToEnd.CancelledTellsNobody`, `EndToEnd.BehindUntilTold`).
`Cancellation.CancelledLeavesStale` is a run of both services that ends so, the stored comic not to be found. With nothing
lost and nothing left to deliver, the newest version has been delivered iff a notification got through after the last
write (`EndToEnd.DeliveredIffAllTold`).

A pool without workers never gets anywhere. `WorkerPoolRuns.StartNeedsAWorker` says exactly when a fresh pool is
stuck, which is what the constructor's check is for.

## Model

| member | source | states |
|---|---|---|
| Words.FieldsAreMaximalRuns | search-services/words/words/words.go:14-16 | a token is a maximal run of letters and digits, and every such run is a token |
| Words.FieldsInOrder | search-services/words/words/words.go:14-16 | the tokens come from left to right, each from its own place with a gap after it, and every maximal run has such a place |
| Words.FieldsJoin | search-services/words/words/words.go:14-16 | two texts joined by a separator have the tokens of the first followed by those of the second |
| Words.KeywordsMeaning | search-services/words/words/words.go:12-25 | a keyword is the stem of some lower-cased maximal run that is no stop word, and nothing else is |
| Words.KeywordsJoin | search-services/words/words/words.go:12-25 | joining two texts by a separator unites their keyword sets |
| Words.Norm | search-services/words/words/words.go:12-25 | returns the keywords of the phrase, each once, in any order |
| WordsClient.Client.Norm | search-services/update/adapters/words/words.go:46-55 | asks for exactly this phrase; no answer is one error, a phrase of more than 20000 bytes another, and otherwise the keywords come without duplicates |
| WordsClient.WidthHolds | search-services/words/grpc/server.go:28-33 | a character takes the fewest UTF-8 bytes that hold its code point |
| WordsClient.BytesBounds | search-services/words/grpc/server.go:28-33 | the length checked is that of the phrase in characters exactly for ASCII, and at most four times it |
| WordsClient.BytesConcat | search-services/words/grpc/server.go:28-33 | the lengths of joined texts add up |
| Lists.Collect | search-services/words/words/words.go:24 | all keys of a map, each once, in any order |
| Storage.DB.Rows | search-services/search/adapters/db/storage.go:66-71 | every row of the table exactly once, in any order |
| Storage.DB.List | search-services/search/adapters/db/storage.go:65-84 | one query; its answer is a listing of the table, its failure a store error |
| Storage.DB.Search | search-services/search/adapters/db/storage.go:37-46 | one query; exactly the ids of the rows containing the keyword, once each, or its failure |
| Storage.DB.Get | search-services/search/adapters/db/storage.go:48-57 | one query; the row's id and url, a missing row as an error of its own, or its failure |
| Storage.DB.Add | search-services/update/adapters/db/storage.go:33-41 | one INSERT; if it is answered, the row is added iff its id was free; otherwise nothing changes |
| Storage.DB.IDs | search-services/update/adapters/db/storage.go:69-82 | one query; exactly the ids of the table, or its failure |
| Storage.DB.Drop | search-services/update/adapters/db/storage.go:84-88 | one TRUNCATE; empties the table iff it is answered, and otherwise leaves it alone |
| Storage.DB.Stats | search-services/update/adapters/db/storage.go:43-67 | fails iff one of its queries does; otherwise the three counters of the table, whatever order its rows are read in; never more unique words than words |
| ComicsTable.ListingByIds | search-services/search/adapters/db/storage.go:65-84 | reading each id of the table once lists exactly the table |
| Counters.CountersOrderFree | search-services/update/adapters/db/storage.go:43-67 | the counters depend on the table only, not on the order of its rows |
| Counters.PostingsByWordOrRow | search-services/search/core/service.go:82-95 | index entries counted by word equal those counted by row |
| Counters.IndexCounters | search-services/update/adapters/db/storage.go:51-61 | index keys are WordsUnique, index entries are the rows' distinct words, and they are WordsTotal many exactly when no row repeats a word |
| Ranking.BumpDistinct | search-services/search/core/service.go:44-46 | counting a duplicate-free id list adds one to exactly those ids |
| Ranking.NotLessTransitive | search-services/search/core/service.go:48-50 | "does not come before" is transitive for every strict weak order |
| Ranking.ByScoreIsStrictWeak | search-services/search/core/service.go:48-50 | comparing by descending score is a strict weak order, as the library's sort demands |
| Ranking.InsertionPoint | search-services/search/core/service.go:48-50 | the place in a sorted list that keeps it sorted |
| Ranking.SortedFunc | search-services/search/core/service.go:48-50 | all keys once each, sorted by the comparison, ties in any order |
| Ranking.SortedPrefixIsTopK | search-services/search/core/service.go:48-56 | sorting and cutting keeps min(limit, matches) distinct ids, best first, and nothing left out beats anything kept |
| Ranking.TopKSameScores | search-services/search/core/service.go:48-56 | any two correct cuts hold the same scores position by position |
| Ranking.TopKSameAboveCut | search-services/search/core/service.go:48-56 | any two correct cuts contain the same ids above the lowest score kept, and all of those |
| Ranking.TopKExists | search-services/search/core/service.go:48-56 | every scoring and limit has a correct cut |
| InvertedIndex.PostingsMember | search-services/search/core/service.go:82-95 | an id is on a word's posting list iff a row with that id contains the word |
| InvertedIndex.PostingsNoDup | search-services/search/core/service.go:87-92 | a posting list has no duplicates even when rows repeat words |
| InvertedIndex.PostingsKeepOrder | search-services/search/core/service.go:82-95 | a posting list keeps the order of the listing |
| InvertedIndex.IndexOfRepresents | search-services/search/core/service.go:79-95 | the index of any listing has exactly the right entries, no empty or repeating posting list, and the catalogue has exactly the table's comics |
| InvertedIndex.BumpMatches | search-services/search/core/service.go:42-47 | counting one more keyword's ids turns the scores for a keyword set into those for the larger set, whatever the order |
| InvertedIndex.PresentAnswers | search-services/search/core/service.go:58-64 | looking up a ranked cut skips nothing and answers the query |
| InvertedIndex.AnswersAgree | search-services/search/core/service.go:31-149 | any two answers to one query on one table, from the index or the scan, have equal length, the same score sequence and the same comics above the cut |
| InvertedIndex.AnswerLength | search-services/search/core/service.go:52-56 | an answer has min(limit, matches) comics, and with room for all matches it lists exactly them |
| SearchService.IndexRows | search-services/search/core/service.go:79-95 | the row loop builds exactly the index and the catalogue of the listing |
| SearchService.AddWords | search-services/search/core/service.go:87-94 | the word loop with its seen set turns the index of the rows so far into that of one row more |
| SearchService.CountIds | search-services/search/core/service.go:44-46 | the increment loop counts every id of the list |
| SearchService.RankAndCut | search-services/search/core/service.go:48-56 | sort and cut give a correct ranked cut |
| SearchService.Service.constructor | search-services/search/core/service.go:21-29 | a new service stands for the empty table |
| SearchService.Service.BuildIndex | search-services/search/core/service.go:73-105 | lists once; fails iff that List failed, leaving the pair unchanged; otherwise the pair stands for the current table, an empty one included |
| SearchService.Service.CountKeywords | search-services/search/core/service.go:38-47 | the scores are the number of query keywords in each matching row |
| SearchService.Service.LookUp | search-services/search/core/service.go:57-64 | the catalogue's entries in order, passing over missing ones |
| SearchService.Service.ISearch | search-services/search/core/service.go:31-71 | normalises once and fails iff that fails, with its error; otherwise answers the query on the table the index stands for |
| SearchService.Service.ScanKeywords | search-services/search/core/service.go:115-125 | one query a keyword; fails iff one of them does; otherwise the scores are the number of query keywords in each matching row |
| SearchService.Service.FetchRows | search-services/search/core/service.go:137-145 | one query an id; fails iff one of them does; otherwise the comics of the ranked ids in order |
| SearchService.Service.Search | search-services/search/core/service.go:107-149 | fails iff normalising or one of its queries fails, with that error; otherwise answers the query on the table itself |
| QueryAlgebra.JoinedQuery | search-services/search/core/service.go:42-47 | "a b" matches exactly what a or b matches, with scores between the larger of the two and their sum |
| QueryAlgebra.IndexesTitleAndDescription | search-services/update/core/service.go:130-139 | a comic's words are the keywords of title and description, and a query matches it iff it shares one of those |
| MissingIds.MissingExact | search-services/update/core/service.go:79-90 | strictly increasing, and exactly the ids of 1..lastID that do not exist |
| MissingIds.MissingLength | search-services/update/core/service.go:79-90 | as long as lastID minus the existing ids in range, or empty when lastID is not positive |
| MissingIds.MissingAfterStoring | search-services/update/core/service.go:79-90 | storing some ids removes exactly those from the gap and keeps the order of the rest |
| WorkerPool.StepConserves | search-services/update/core/service.go:93-122 | every step keeps each handed-out id with exactly one worker or exactly one fate |
| WorkerPool.ConservationMeans | search-services/update/core/service.go:93-122 | handed out is the disjoint union of in flight and finished, at most one id a worker; when all is through nothing is in flight and the processed ids are a prefix, or all if not cancelled |
| WorkerPool.StepTracks | search-services/update/core/service.go:124-147 | every step keeps the table equal to the initial one plus the rows whose Get, Norm and Add succeeded |
| WorkerPool.NoKeyConflict | search-services/update/core/service.go:141-143 | no worker ever hits the primary key |
| WorkerPool.TableEffect | search-services/update/core/service.go:124-147 | old rows are untouched and each new row belongs to an id of the run |
| WorkerPoolRuns.StepDecreases | search-services/update/core/service.go:93-122 | every step, the environment's included, lowers a natural measure |
| WorkerPoolRuns.Progress | search-services/update/core/service.go:93-122 | with a worker, an unfinished pool can always move without being cancelled |
| WorkerPoolRuns.StartNeedsAWorker | search-services/update/core/service.go:25-27 | a fresh pool is stuck iff it has no worker and something to hand out |
| WorkerPoolRuns.RunKeeps | search-services/update/core/service.go:93-147 | conservation, table tracking and the step bound hold in every state of every run |
| WorkerPoolRuns.RunsEnd | search-services/update/core/service.go:93-122 | runs are at most 5 steps an id, one a worker and two long, and one that cannot go on is finished |
| WorkerPoolRuns.RunAccounts | search-services/update/core/service.go:93-147 | in every state ids are accounted for, old rows are kept, and new rows are those of the succeeded ids |
| WorkerPoolRuns.RunExplains | search-services/update/core/service.go:93-147 | in every state of every run an id has a fate iff a step ended the work on it so, a stored row is made of what the site and the words service answered for it, and the pool is cancelled iff the context was |
| WorkerPoolRuns.UpdateEffect | search-services/update/core/service.go:38-147 | what an update leaves: base plus stored rows; asking again with the same last id yields exactly the ids not stored, all failed or not found if it was not cancelled |
| UpdateService.NewService | search-services/update/core/service.go:22-36 | refuses fewer than one worker, otherwise returns an idle service with exactly the given parts |
| UpdateService.Service.MissingIDs | search-services/update/core/service.go:68-91 | asks the site, then the store; fails iff one of these fails, with its error; otherwise the gap between the site's last id and the table |
| UpdateService.Service.Work | search-services/update/core/service.go:124-147 | makes exactly the one call of the worker's stage, and its step is the success iff that call succeeded |
| UpdateService.CallVouches | search-services/update/core/service.go:124-147 | what a worker has in hand, and the fate of its id, is owed to the answer to that call |
| UpdateService.AllGoesWell | search-services/update/core/service.go:93-147 | if every call was answered and nothing cancelled, of the gap exactly what the site has and the words service takes is in the table |
| UpdateService.Service.RunWorkers | search-services/update/core/service.go:93-122 | terminates under any schedule with everything handed out accounted for in the table, each fate owed to the answers for its id, and cancelled only if the context is |
| UpdateService.Service.Update | search-services/update/core/service.go:38-66 | rejected iff running, asking nobody; otherwise fails iff one of its two reads does, is cancelled iff there was a gap and the context is done after it, and is nil else, with one notification iff there was a gap; old rows stay, new ones are what the site says, and if all went well everything the site has of 1..lastID is there |
| UpdateService.Service.Drop | search-services/update/core/service.go:173-188 | rejected iff running; fails and changes nothing iff the TRUNCATE fails; otherwise empties the table and attempts one notification |
| UpdateService.Service.Status | search-services/update/core/service.go:166-171 | running iff the flag is set |
| UpdateService.Service.Stats | search-services/update/core/service.go:149-164 | fails iff the store or then the site does, with its error; otherwise the table's counters with the site's last id |
| Jobs.StepExclusive | search-services/update/core/service.go:39-42 | every step keeps the flag set exactly while a caller owns it, and never two owners |
| Jobs.WritesUnderTheFlag | search-services/update/core/service.go:38-66 | only the owner changes the table, and only while the flag is set |
| Jobs.RejectedCallsLeaveNoTrace | search-services/update/core/service.go:39-41 | take out of any run the steps of a caller that was only ever rejected, and what is left is a run ending in the same table, flag, log and other callers |
| Jobs.LostNotificationsChangeNothing | search-services/update/core/service.go:60-62 | every run with all its failed notifications made successful is again a run, equal in flag, callers, results and tables in every state |
| JobLog.StepLogged | search-services/update/core/service.go:38-188 | every step keeps the log in the grammar of whole jobs and every caller where the log says |
| JobLog.ReleasedJob | search-services/update/core/service.go:38-188 | each release closes a job that ran alone and did exactly what its kind and outcome allow |
| JobLog.WritesBeforeNotify | search-services/update/core/service.go:54-62 | in a job that returned nil, writing implies notifying and all writes come first |
| JobLog.StepNumbered | search-services/update/core/service.go:60-62 | every step keeps each notification numbered with the writes made before it |
| JobLog.NotificationCoversWrites | search-services/update/core/service.go:54-62 | a notification's version counts exactly the writes made before it |
| JobRuns.PoolStepSound | search-services/update/core/service.go:93-147 | pool steps keep the pool's accounts true of the shared table, among any other callers |
| JobRuns.RunInvariant | search-services/update/core/service.go:38-188 | exclusion, log grammar, table invariants and the effect of each logged write hold in every state of every run |
| JobRuns.TableFromLog | search-services/update/core/service.go:38-188 | in every state of every run a truncation left the empty table, a stored comic one row more under an id that was free, and the log tells which ids the table has |
| JobRuns.DropEmpties | search-services/update/core/service.go:173-188 | after a drop that returned nil the table is empty until something is stored again |
| JobRuns.JobExclusion | search-services/update/core/service.go:38-188 | over whole runs of any number of callers: one owner at most, running iff owned, writes only by the owner |
| JobRuns.FetchedWithinTotal | search-services/update/core/service.go:149-164 | stored ids stay in 1..lastID over any history, so ComicsFetched <= ComicsTotal with the gap the ids not stored |
| JobRuns.UpdateAmongOthers | search-services/update/core/service.go:38-66 | an update's effect holds whatever other callers did meanwhile |
| JobRuns.OwnerAdvances | search-services/update/core/service.go:38-66 | each own step brings the owner closer to releasing the flag; others leave it where it is |
| JobRuns.OwnerNeverBlocked | search-services/update/core/service.go:38-66 | the owner always has a step of its own, other than being cancelled, and waits for nobody |
| JobRuns.AnyAnswerIsTaken | search-services/update/core/service.go:38-188 | no answer of the site, the words service, the store or the broker is ruled out at the call it belongs to, and no INSERT for lack of a free id |
| JobRuns.LatestIsPublished | search-services/update/core/service.go:69-72 | the last id a job reads is the one the site published last |
| JobRuns.FlagIsReleased | search-services/update/core/service.go:38-66 | in every run a job takes at most 5 own steps an id of its gap, one a worker, and 7, fewer while it holds the flag; and one with no own step left has released it |
| JobRuns.JobsAreBounded | search-services/update/core/service.go:38-66 | the same bound with the site's last id in place of the gap, for every job of every run |
| JobSteps.PublishAfterWrite | search-services/update/core/service.go:48-65 | in every run each finished job wrote before its single notification attempt, and its outcome, and whether it tried to notify, is what its own steps decide |
| JobSteps.StandsInRun | search-services/update/core/service.go:38-188 | in every state of every run each caller stands where its own steps since its last call have brought it: the job it asked for, the last id and the table it read, its pool cancelled iff it saw a cancellation |
| JobSteps.OutcomeExplained | search-services/update/core/service.go:38-66 | a call returns AlreadyExists iff it found the flag set, an error iff the call for it failed, Cancelled iff the context was cancelled while its pool was at work; it tried to notify iff it was a drop that went through, or an update with a gap that was not cancelled |
| JobSteps.LogExplained | search-services/update/core/service.go:38-188 | each logged event stands for one step: an acquisition for the job last called for, a plan for exactly the ids of 1..lastID, as read, absent from the table, as read, a release for what the job's steps ended in |
| JobSteps.ReturnedAsReleased | search-services/update/core/service.go:42-65 | a caller that was not rejected returned what its last release says |
| JobSteps.PoolRunsAlone | search-services/update/core/service.go:93-147 | among any other callers an update's own pool steps are a run of the pool by itself on the table it read |
| JobSteps.UpdateExplained | search-services/update/core/service.go:93-147 | so the fate of each id of its gap is what the calls for it came to |
| Propagation.StepUntorn | search-services/search/core/service.go:40-100 | every step keeps lock exclusion, the two halves matched outside a swap, and every search consistent with the pair it began with |
| Propagation.BuildKeepsReaders | search-services/search/core/service.go:97-100 | a swap is never seen by a search at work |
| Propagation.SearchSound | search-services/search/core/service.go:40-66 | each step of a search keeps its partial result true of one snapshot |
| PropagationRuns.StepCovered | search-services/search/adapters/subscriber/update_subscriber.go:39-64 | every step keeps this: no message is ahead of the table, a List is due while the newest delivered version is one no List of the subscriber's has looked at, and builds never exceed deliveries |
| PropagationRuns.StepFresh | search-services/search/core/service.go:73-100 | every step keeps the subscriber's last List installed or about to be, unless it met the initiator waiting with an older listing |
| PropagationRuns.NoLostWakeUp | search-services/search/adapters/subscriber/update_subscriber.go:39-64 | after every single delivery, in every later state, the trigger is full, a List is coming, or one was made since that delivery, at the message's version or later; builds never exceed deliveries |
| PropagationRuns.CallbackNeverBlocks | search-services/search/adapters/subscriber/update_subscriber.go:39-45 | whatever the subscriber is doing short of having stopped, any message on its way, none of them ahead of the table, can be delivered, and then a List is due |
| PropagationRuns.MessagesAccounted | search-services/search/adapters/subscriber/update_subscriber.go:39-45 | each message published is on its way, delivered or lost, once, and builds never exceed deliveries |
| PropagationRuns.DeliveryLeadsToList | search-services/search/adapters/subscriber/update_subscriber.go:39-64 | after a delivery the subscriber comes to its next List, or stops, within five own steps; until then the trigger is full and it has a next step, or waits for a lock some holder of which can move |
| PropagationRuns.ListingGetsInstalled | search-services/search/core/service.go:73-100 | a listing is installed by the next three steps of its builder, unchanged by anybody else |
| PropagationRuns.FreshAtRest | search-services/search/core/service.go:73-105 | at rest, if the subscriber's last List succeeded and did not meet the initiator waiting with an older listing, the installed index is that of the last delivered version or later |
| PropagationRuns.FreshSinceLastList | search-services/search/core/service.go:73-105 | the same said of the List: the index at rest is at least as new as that List and every delivered notification, whatever overlapped before it |
| PropagationRuns.FreshOnceAtRest | search-services/search/core/service.go:73-105 | after a successful List, whatever outran it, such an index was installed at some time, and is gone only if an older listing was swapped in later |
| PropagationRuns.SoleBuilderGoesForward | search-services/search/adapters/initiator/initiator.go:29-48 | over any stretch in which the initiator does not build, and at whose start the subscriber holds nothing older than what is installed, installed versions never go back, even when Lists fail |
| PropagationRuns.SearchesAreAtomic | search-services/search/core/service.go:31-71 | every concurrent search answers the query it was asked, with the limit it was asked with, correctly on one table: the one whose listing was installed when it took the read lock |
| PropagationRuns.LockedSnapshot | search-services/search/core/service.go:40-66 | from taking the read lock on, a search works and answers on the version installed at that moment |
| PropagationRuns.LockedAnswer | search-services/search/core/service.go:40-66 | the same for a search seen taking the lock |
| PropagationRuns.NoMissingComic | search-services/search/core/service.go:58-64 | the missing-comic branch is never taken under any interleaving |
| PropagationRuns.ReadersLetGo | search-services/search/core/service.go:40-66 | a search holding the read lock can always go on and is bound to let go |
| PropagationRuns.WritersLetGo | search-services/search/core/service.go:97-100 | a builder holding the write lock can always go on and is bound to let go |
| PropagationRuns.LockComesFree | search-services/search/core/service.go:97-100 | while nobody new takes the lock, its holders take at most a fixed number of steps, one can always move, and a waiting builder can lock exactly when none of them needs any |
| PropagationRuns.ReaderLockIsFree | search-services/search/core/service.go:40-66 | a waiting search can take the read lock iff no builder needs another step to let go of it, and until then that builder can take one |
| PropagationRuns.BuilderMoves | search-services/search/adapters/subscriber/update_subscriber.go:55-64 | a builder waiting for neither lock nor wake-up has a next step, and its List may fail or bring the table in any order |
| PropagationRuns.OnlyDoneStops | search-services/search/adapters/initiator/initiator.go:37-46 | a builder is stopped iff its context was done; failed builds stop nobody |
| Staleness.FallsIffOlderHeld | search-services/search/core/service.go:73-100 | some continuation installs an older version than the installed one iff a builder holds a listing older than it |
| Staleness.RestsStaleIffOutrun | search-services/search/core/service.go:73-100 | from the subscriber's wait for the lock, without another List of its own, a rest on an older version is reachable iff the trigger is empty and the initiator waits with an older listing |
| Staleness.ListsIntoStaleRest | search-services/search/core/service.go:74-97 | the same at the moment the subscriber lists, before anything is swapped in |
| Staleness.FailedListRestsStale | search-services/search/adapters/subscriber/update_subscriber.go:58-62 | after a failed List, without another, a rest on a version older than the one it failed to read is reachable iff the trigger is empty and what the initiator is about to install, or else what is installed, is older |
| Staleness.StaleRest | search-services/search/core/service.go:73-100 | from any state in which both wait, the initiator with the older listing, a rest is reached whose index stands for the older table, and for the newer one iff the search side cannot tell them apart |
| Staleness.RepresentsAnother | search-services/search/core/service.go:79-95 | an index that stands for one table stands for another iff both have the same ids, urls and words |
| Staleness.OlderMisses | search-services/search/core/service.go:31-71 | a comic that only the newer table has under a word is in every roomy answer from the newer table and in no answer from the older |
| Staleness.OverlapGoesStale | search-services/search/adapters/initiator/initiator.go:29-48 | a run with everything delivered, every List successful and all at rest, whose index yields nothing for the word of the stored comic |
| EndToEnd.JobsAreNeverHeldUp | search-services/update/core/service.go:60-62 | the search side never blocks a step of the update service |
| EndToEnd.RunInvariant | search-services/search/core/service.go:73-105 | both services' invariants hold together and they see one table history |
| EndToEnd.SearchSideRuns | search-services/search/core/service.go:73-105 | the search side of every joint run is a run of the propagation |
| EndToEnd.JobSideRuns | search-services/update/core/service.go:38-188 | the update side of every joint run is a run of the callers |
| EndToEnd.DeliveredIffAllTold | search-services/update/core/service.go:54-62 | with nothing lost and nothing left to deliver, the newest version has been delivered iff a job's notification got through after the last write |
| EndToEnd.UntoldWrites | search-services/update/core/service.go:54-62 | after a write that no notification followed, every message sent, delivered or not, is of an older version |
| EndToEnd.CancelledTellsNobody | search-services/update/core/service.go:56-58 | a cancelled update that wrote something leaves the search service unaware of it until a later notification gets through |
| EndToEnd.BehindUntilTold | search-services/update/core/service.go:56-58 | while nobody builds and nothing is on its way, the installed pair stays the same until a notification gets through, and is right iff the search side cannot tell the current table from the installed one |
| Cancellation.UntoldJobsLeaveStale | search-services/update/core/service.go:56-58 | beside any run of jobs whose notifications never get through, the search side may rest undisturbed on the empty index, which is right iff the table is empty |
| Cancellation.CancelledLeavesStale | search-services/update/core/service.go:56-58 | a run in which an update stores a comic, is cancelled and returns, everything rests with nothing on its way, and the comic is missed under each of its words |
| EndToEnd.SettledInSync | search-services/search/core/service.go:73-105 | once the jobs have told of all writes, all that was sent is delivered and the search side rests after a List that nothing outran, the index stands for the table as the jobs left it, and both services count the same |
| EndToEnd.SettledSearch | search-services/search/core/service.go:31-71 | a search that takes the read lock in a settled state answers what it was asked on the table as the jobs left it then |
| EndToEnd.StoredComicsAreFound | search-services/update/core/service.go:130-141 | such a search, with room for all matches, returns a stored comic iff the query it was asked shares a keyword with the comic's title or description |
| EndToEnd.AnswersComeFromJobs | search-services/search/core/service.go:31-71 | every search that returned answered what it was asked on a table some job, or the beginning, had left |

## Left out

- HTTP, gRPC, frontend, login, rate limiting, metrics, configuration and logging.
- Integer widths: ids, scores and counters are unbounded; the table's 32-bit ids and Go's 64-bit counters cannot
  overflow by counting comics.
- The difference between "not found" and other errors of a worker, beyond naming them: the source only logs it.
- The library's sort algorithm: any sort with the stated contract, ties in any order.
- Rows with NULL words are rows without words, as both adapters read them.
- The select loops of `Subscribe` and `Start` as methods: their bodies are the builder's steps in `Propagation`, so
  connecting to the broker, unsubscribing and the ticker's period are not modelled; the ticker may fire at any time.
- The read-write lock and the compare-and-swap in the two service classes, which run one call at a time; both are
  modelled in `Propagation` and `Jobs`.
- Fairness: that a goroutine which can move does move. What is proved is that it can, and that it gets closer.
- Writer preference of the read-write lock: new readers are admitted while a writer waits, which allows more runs.
- Search and Stats while the table changes: they issue several queries, so they are stated on a fixed table.
- UpdateService.Service.Update: states one caller's view with nobody else calling; the interleavings are in `Jobs`.
- UpdateService.Service.Drop: as Update, one caller's view; concurrent drops are in `Jobs`.
- Panics inside a goroutine, and what happens to a process that is killed.
