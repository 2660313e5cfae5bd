# Verified models of the server's hard parts

This project models four parts of the music server and proves properties of the models in Dafny.
Run `dafny verify dfyconfig.toml` to check all of it.

- **The plugin task queue** (`Backoff`, `TaskQueue*`). A state machine in which every SQL statement is one
  atomic step and every worker a program counter holding at most one task. `TaskQueueModel` gives the steps,
  `TaskQueueInvariant` what each of them keeps, `TaskQueueRuns` theorems about arbitrary runs, crashes included,
  and `TaskQueueService` the service object, each of whose methods is proved to take those steps. `Backoff` is
  the arithmetic of the retry delay.
- **The smart-playlist compiler** (`SqlConditions`, `Criteria*`). `SqlConditions` gives the generated conditions
  a meaning under SQL's three-valued logic, `CriteriaCompile` compiles a criteria tree in the program's optimised
  style and in a plain one, `CriteriaMerge` and `CriteriaMergeLoop` are the merging of EXISTS subqueries as a
  specification and as the program's three passes, `CriteriaMergeMeaning` shows that it preserves meaning, and
  `CriteriaMeaning` gives criteria an independent two-valued meaning and proves that both styles select just the
  tracks it describes. `CriteriaReadings` says what single criteria select in terms of stored values, and which
  criteria are refused.
- **Playlist positions** (`Playlist*`). `PlaylistTable` is the table with its unique (playlist_id, id) index and
  the reading of a playlist as a sequence; `PlaylistReorder` and `PlaylistNumbering` say what moving,
  renumbering, deleting and inserting do to that sequence (`PlaylistSequences` has what they share);
  `PlaylistStore` has the statements, which write rows one at a time in arbitrary order, and the repository
  methods built from them; `PlaylistRuns` is about runs of those methods.
- **Lyrics** (`Lyrics*`). `LyricsVoices` and `LyricsfileLines` assign voices to overlapping lines and offsets to
  words, `LyricsNormalize` resolves cue ends per agent, `LyricsText` is UTF-8, trimming and cutting,
  `LyricsTtml` and `LyricsTtmlLines` build TTML lines, `LyricsLrc` Enhanced LRC lines, `LyricsAgents` settles the
  main agent.

Where the code falls short of what it or its comments intend, the model follows the code, a lemma or method
shows a concrete input, and the exact condition is proved:

- the retry delay wraps to a short one for bases beyond 2^43 ms (`Backoff.DelayWrapsBeyond43`; exactly when:
  `Backoff.DelayIsPromisedIff`);
- an attempt number beyond int32 leaves a row running that no worker holds
  (`TaskQueueRuns.OverflowingAttemptIsOrphaned`; `TaskQueueRuns.RunningTaskIsHeldIff`);
- merged subqueries lose tracks when two names of one tag disagree on being numeric, as the built-in alias
  `albumtype` and a numeric `releasetype` would (`CriteriaMergeMeaning.MergeNeedsNumericAgreement`;
  `CriteriaMeaning.FastIsSafeIff`);
- a date equal to the first day of a period is neither in that period nor outside it
  (`CriteriaReadings.PeriodReads`);
- Reorder fails when its range reaches the sentinel position 999999, and arguments outside the playlist leave
  gaps (`PlaylistStore.ReorderMeetsSentinel`, `PlaylistStore.ReorderPastTheEnd`;
  `PlaylistStore.Store.ReorderTrack`), and a move to place 999999 cannot be moved back
  (`PlaylistRuns.MoveBackUnlessSentinel`);
- Add wraps to a negative position after track 2^31-1 (`PlaylistStore.AddWraps`; `PlaylistStore.Store.Add`);
- the offsets of a trailing empty word lie outside its line, although the comment at model/lyrics_lyricsfile.go:236-238
  says offsets always land inside (`LyricsfileLines.TrailingEmptyWordFallsOutside`;
  `LyricsfileLines.WordOffsetInsideIff`);
- Lyricsfile entries that are not sorted by start may overlap on one voice (`LyricsVoices.UnsortedLinesMayShare`),
  because a line loses its voice to any later one that starts after its end (`LyricsVoices.KeepsVoiceIff`).

What comes from outside is a parameter: clock readings (`now`), plugin results, random ids (assumed never to
repeat), the day a period starts, the database's LIKE on a non-null value (defined for texts where its patterns
matter) and its cast of a text to a number.

## Model

| member | source | states |
|---|---|---|
| Backoff.DelayIsPromisedIff | plugins/host_taskqueue.go:473-477 | For every positive int64 base and every attempt, the wrapping shift followed by the clamp equals min(base * 2^(attempt-1), one hour) exactly when the shift does not drop high bits and leave a remainder that passes for a short delay |
| Backoff.DelayIsPromised | plugins/host_taskqueue.go:473-477 | For every base from 1 to 2^43 ms the delay is the promised one on every attempt, and each attempt doubles it up to the cap |
| Backoff.DelayWrapsBeyond43 | plugins/host_taskqueue.go:473-477 | Concrete failure one millisecond beyond 2^43: attempt 22 waits about 35 minutes where the formula promises the one-hour cap |
| Backoff.DelayInRange | plugins/host_taskqueue.go:473-477 | Whatever the base, the delay lies in 1..3600000 |
| Backoff.ShiftKeepsSurviving | plugins/host_taskqueue.go:474 | The int64 shift keeps exactly the low 64-n bits of the base, moved up by n |
| TaskQueueInvariant.StepKeepsInv | plugins/host_taskqueue.go:199-590 | Every step of the queue protocol (any interleaving of creation, enqueue, cancel, clear, dequeue, abort, completion, failure, cleanup, shutdown, crash) keeps the whole invariant: workers match queues and budget, what a worker holds is a running row of its queue, holders are unique, no live running row is unheld, attempts are accounted for |
| TaskQueueInvariant.CreateQueueKeepsInv | plugins/host_taskqueue.go:199-263 | Creating a queue resets stale running rows of that queue, and never one that some worker holds |
| TaskQueueInvariant.DequeueKeepsInv | plugins/host_taskqueue.go:395-417 | The atomic dequeue gives a row that nobody held to exactly one worker |
| TaskQueueInvariant.CompleteKeepsInv | plugins/host_taskqueue.go:447-453 | Completion, which names its row by id alone, keeps the invariant |
| TaskQueueInvariant.FailureKeepsInv | plugins/host_taskqueue.go:455-489 | So do the two failure updates, rescheduling and giving up |
| TaskQueueInvariant.RevertKeepsInv | plugins/host_taskqueue.go:433-437 | Reverting an interrupted attempt keeps the invariant, including the attempt accounting |
| TaskQueueInvariant.FinishCloseKeepsInv | plugins/host_taskqueue.go:580-586 | The final reset of a shutdown leaves no row running |
| TaskQueueRuns.ReachableStatesKeepInv | plugins/host_taskqueue.go:85-122 | The invariant holds after every run from an empty service |
| TaskQueueRuns.AtMostOneHolder | plugins/host_taskqueue.go:395-445 | In every reachable state a task has at most one holder |
| TaskQueueRuns.RunningTaskIsHeldIff | plugins/host_taskqueue.go:395-417 | Until shutdown begins a running task of a created queue has a holder exactly when its attempt number still fits the int32 it is scanned into |
| TaskQueueRuns.OverflowingAttemptIsOrphaned | plugins/host_taskqueue.go:401-417 | The exception can be reached: a run from an empty service, one crash per attempt, whose last dequeue marks the row running while no worker learns of it |
| TaskQueueRuns.RunningTasksFitBudget | plugins/host_taskqueue.go:180-197 | Running tasks, not counting rows whose attempt exceeds int32, never exceed the concurrency of their queue, nor the summed concurrency, which never exceeds maxConcurrency |
| TaskQueueRuns.UnguardedWritesHitRunningRows | plugins/host_taskqueue.go:447-489 | Every row that completion or failure can write is running, although neither update has a status guard |
| TaskQueueRuns.TerminalIsAbsorbing | plugins/host_taskqueue.go:447-489 | Once a task is completed, failed or cancelled, no run changes its row: it stays as it was or is gone |
| TaskQueueRuns.StepKeepsTerminal | plugins/host_taskqueue.go:541-560 | The only step that removes a finished task is a cleanup of its own queue whose retention has run out |
| TaskQueueRuns.DeletedStaysDeleted | plugins/host_taskqueue.go:541-560 | No step of any run brings a deleted task back |
| TaskQueueRuns.FinishedTaskIsRetained | plugins/host_taskqueue.go:541-560 | A finished task stays readable and unchanged through any run until the clock passes its last transition by more than the retention floor, across crashes and re-creation of its queue |
| TaskQueueRuns.FinishedTaskIsRetainedAMinute | plugins/host_taskqueue.go:162-174 | The same with the minimum of one minute, whatever configurations the run contains |
| TaskQueueRuns.ClampedRetention | plugins/host_taskqueue.go:154-175 | Defaults put every retention in 60000..604800000, leave one already inside alone, and are idempotent |
| TaskQueueRuns.AttemptsAreBounded | plugins/host_taskqueue.go:401-499 | In every reachable state the attempt counter is dequeues minus effective reverts, and at most max(maxRetries,0)+1 plus the number of crashes and shutdowns |
| TaskQueueRuns.RevertNeverClips | plugins/host_taskqueue.go:491-499 | The MAX(..., 0) of the revert never takes effect |
| TaskQueueRuns.RetriesRunOut | plugins/host_taskqueue.go:465-471 | A task whose uninterrupted invocations have used up its retries and that is not running has finished; the count never exceeds max(maxRetries,0)+1 |
| TaskQueueRuns.RetryWaitsForBackoff | plugins/host_taskqueue.go:473-483 | After a failure that is retried, whatever happens in between, the next dequeue of that task reads a clock of at least failure time plus the backoff |
| TaskQueueRuns.CrashIsRecovered | plugins/host_taskqueue.go:235-242 | After a crash, creating a queue succeeds, starts idle workers, and turns exactly the stale running rows of that queue pending again |
| TaskQueueService.Service.constructor | plugins/host_taskqueue.go:85-122 | A new service is the initial state of the protocol |
| TaskQueueService.Service.GrantedConcurrency | plugins/host_taskqueue.go:181-184 | The int32 sum over the queues, in any order, is the exact total and never overflows |
| TaskQueueService.Service.ClampedConcurrency | plugins/host_taskqueue.go:177-197 | What is granted together with what was granted before stays within the budget; nothing is granted when it is exhausted |
| TaskQueueService.Service.CheckNewQueue | plugins/host_taskqueue.go:154-218 | Exactly when each rejection is given (no name, more than 128 characters, no workers left, queue exists); otherwise the caller gets the retries, delay, backoff, concurrency and retention asked for, with missing ones filled in (1 worker, 1000 ms, an hour), retention kept within a minute and a week, and concurrency cut to what is left |
| TaskQueueService.Service.CreateQueue | plugins/host_taskqueue.go:154-263 | The same for the queue it creates; its stale running rows, and no others, are pending again, and it gets that many idle workers. Takes exactly the creation step of the protocol |
| TaskQueueService.CreateAndEnqueue | plugins/host_taskqueue.go:199-291 | A task put into a new queue is pending, due at once, carries its payload and has the retries the creator of the queue asked for |
| TaskQueueRuns.RunKeepsRequest | plugins/host_taskqueue.go:265-291 | No run changes the queue, payload, retries or creation time of a task |
| TaskQueueService.Service.StartWorkers | plugins/host_taskqueue.go:255-257 | One idle worker per unit of concurrency |
| TaskQueueService.Service.Enqueue | plugins/host_taskqueue.go:265-291 | Rejects an unknown queue, then a payload of more than a mebibyte, changing nothing; otherwise adds just one row: pending, due at once, not yet attempted, with the payload and the queue's retries |
| TaskQueueService.Service.Get | plugins/host_taskqueue.go:293-305 | Finds a row exactly when it is in the table, with its status, message and attempt |
| TaskQueueService.Service.Cancel | plugins/host_taskqueue.go:307-337 | Cancels exactly a pending row and changes no other; tells a missing row from one that cannot be cancelled, and reports the status of the latter |
| TaskQueueService.Service.ClearQueue | plugins/host_taskqueue.go:339-367 | Cancels exactly the pending rows of one queue and returns their number |
| TaskQueueService.ClearingTouchesPendingOnly | plugins/host_taskqueue.go:350-353 | Running and finished rows, and rows of other queues, are untouched by a clear |
| TaskQueueService.Service.NextDue | plugins/host_taskqueue.go:404-408 | Picks a pending row of the queue whose time has come, such that none was due earlier, or at the same time and created earlier; none when no time has come |
| TaskQueueService.Service.DequeueTask | plugins/host_taskqueue.go:398-417 | Marks just that row running, with one attempt more, and hands it to the worker, unless the attempt number does not fit an int32. Takes exactly the dequeue step |
| TaskQueueService.Service.CompleteTask | plugins/host_taskqueue.go:447-453 | Writes status, message and time to the held row and no other, and frees the worker, as one protocol step |
| TaskQueueService.Service.FailRow | plugins/host_taskqueue.go:459-482 | Gives up once attempts exceed maxRetries, with the message or else the error text; before that parks the row for the promised backoff (bases up to 2^43 ms), at most an hour |
| TaskQueueService.Service.HandleTaskFailure | plugins/host_taskqueue.go:455-489 | Writes the failure to the held row and frees the worker, as one protocol step |
| TaskQueueService.Service.RevertTaskToPending | plugins/host_taskqueue.go:491-499 | During shutdown a held row becomes pending with one attempt less |
| TaskQueueService.Service.ProcessTask | plugins/host_taskqueue.go:394-445 | One processed task is a run of the protocol; only the row due first is touched, and it ends completed, failed, parked for the backoff, or, if shutdown begins before or during the callback, pending with the attempt not counted. It reports true exactly when a task was delivered and no shutdown came in between |
| TaskQueueService.Service.Interrupted | plugins/host_taskqueue.go:422-437 | An attempt during which shutdown begins, with a rate limiter or without: always reverted, never recorded |
| TaskQueueService.Service.RunCleanup | plugins/host_taskqueue.go:540-560 | Deletes, whatever order the queues come in, exactly the completed, failed and cancelled rows whose own queue has retained them for longer than its retention; other rows are unchanged |
| TaskQueueService.Service.Close | plugins/host_taskqueue.go:562-590 | Afterwards exactly the rows that were running are pending, and other rows are unchanged |
| CriteriaMerge.MergedGroupCount | persistence/criteria_sql.go:509-531 | A field with k >= 2 mergeable conditions gets exactly ceil(k/350) groups and any other field none; every group holds 1 to 350 conditions of the requested polarity |
| CriteriaMerge.GroupSizes | persistence/criteria_sql.go:523-529 | Batches number ceil(k/350) and hold between 1 and 350 conditions each |
| CriteriaMerge.MergeConservesLeaves | persistence/criteria_sql.go:472-544 | The rewritten list tests exactly what the original tested, each condition as often as before |
| CriteriaMerge.MergeIsIdempotent | persistence/criteria_sql.go:472-544 | Merging a merged list changes nothing |
| CriteriaMerge.KeptComesFromInput | persistence/criteria_sql.go:537-543 | Exactly the conditions that were not merged remain |
| CriteriaMerge.NothingMerged | persistence/criteria_sql.go:533-535 | Without a field of two mergeable conditions the list is unchanged |
| CriteriaMerge.NumericForAgrees | persistence/criteria_sql.go:500-505 | When the conditions of a tag agree on being numeric, the group takes the flag of each of them |
| CriteriaMergeLoop.CollectGroups | persistence/criteria_sql.go:483-507 | The first pass collects, for every field, its mergeable tests in order with their positions |
| CriteriaMergeLoop.BatchGroups | persistence/criteria_sql.go:521-530 | Chunks the tests of one field into its specified batches, each once and in order |
| CriteriaMergeLoop.AddGroups | persistence/criteria_sql.go:509-531 | The second pass visits the fields by sorted key, adds the batches of those with two conditions or more, and removes exactly their positions |
| CriteriaMergeLoop.Remaining | persistence/criteria_sql.go:537-542 | The third pass keeps the other conditions in order |
| CriteriaMergeLoop.MergeSameFieldConds | persistence/criteria_sql.go:472-544 | A condition is merged exactly when another of the same polarity tests the same field; the others stay in order, followed by the groups by field name, each of one to 350 tests, which hold the tests of their fields in order. A merge is reported exactly when there is such a pair, and otherwise the list is handed back as it is |
| CriteriaMerge.MergedIffPartner | persistence/criteria_sql.go:483-518 | Two tests of one field and polarity are what it takes to merge |
| CriteriaMerge.MergedIs | persistence/criteria_sql.go:472-544 | The shape of every merged list: which conditions stay, the order of the groups and of the tests in them |
| CriteriaMergeMeaning.GroupsDecide | persistence/criteria_sql.go:546-601 | The batches of one field, each an EXISTS over a disjunction, find a row exactly when some test of the field does |
| CriteriaMergeMeaning.MergePreservesDecision | persistence/criteria_sql.go:472-544 | For either polarity a track settles the merged list exactly when it settles the original |
| CriteriaMergeMeaning.MergedOrAcceptsSameTracks | persistence/criteria_sql.go:449-459 | An Or group of positive conditions accepts the same tracks after merging |
| CriteriaMergeMeaning.MergedAndAcceptsSameTracks | persistence/criteria_sql.go:461-470 | An And group of negated conditions accepts the same tracks after merging, by De Morgan |
| CriteriaMergeMeaning.MergeNeedsNumericAgreement | persistence/criteria_sql.go:500-505 | Without agreement on being numeric the merge drops a track: a concrete pair of conditions, for every tag |
| CriteriaCompile.ExprSQL | persistence/criteria_sql.go:133-192 | Compiles a criteria tree, merging each list on the way up and stopping at the first error; what comes out is what the theorems about compiled criteria speak of |
| SqlConditions.ThreeValues | persistence/criteria_sql.go:546-601 | The conditions are read in three-valued logic: Boolean on two values, commutative, and with De Morgan's law in all three |
| CriteriaMeaning.AnnotationCondAccepts | persistence/criteria_sql.go:692-736 | For every comparator, default and compared value, the bare comparison with or without IS NULL accepts exactly the rows the COALESCE form accepts |
| CriteriaMeaning.BareFormMayBeUnknown | persistence/criteria_sql.go:692-708 | The two forms are not equal conditions: for a row without the annotation one is NULL where the other is FALSE, so the equivalence rests on their never being negated |
| CriteriaMeaning.SatisfiesIsHolds | persistence/criteria_sql.go:710-736 | When the bare form is chosen, IS NULL is added exactly when the default itself satisfies the comparison |
| CriteriaMeaning.CompareMatches | persistence/criteria_sql.go:638-653 | Under three-valued logic a comparison (with a scalar, NULL or a list) is TRUE exactly when the stored value matches in two values |
| CriteriaMeaning.ComparisonMeans | persistence/criteria_sql.go:676-690 | Comparisons on columns, annotations, tags and roles mean what the criteria say |
| CriteriaMeaning.IsNotMeans | persistence/criteria_sql.go:194-199 | "Is not" on a tag or role means that no value is equal |
| CriteriaMeaning.MatchMeans | persistence/criteria_sql.go:249-284 | Text matching on columns, annotations, tags and roles, and its negation |
| CriteriaMeaning.MissingMeans | persistence/criteria_sql.go:201-247 | isMissing/isPresent: NULL, or for texts also empty or a field-specific empty encoding |
| CriteriaMeaning.MissingOrPresent | persistence/criteria_sql.go:229-243 | isMissing and isPresent with one argument split the tracks: each accepts exactly what the other refuses |
| CriteriaMeaning.PeriodMeans | persistence/criteria_sql.go:311-334 | The last-period tests on a column; the negated one includes rows without a date |
| CriteriaMeaning.LeafMeans | persistence/criteria_sql.go:155-191 | Every kind of leaf, in either style, accepts exactly the tracks it describes |
| CriteriaMeaning.CompiledMeans | persistence/criteria_sql.go:133-192 | For every criteria tree, track and style, the compiled condition is TRUE under three-valued logic exactly when the criteria hold for the track in two values |
| CriteriaMeaning.FastSelectsWhatSimpleSelects | persistence/criteria_sql.go:133-192 | The optimised condition (merged subqueries, bare annotation comparisons) and the unmerged, all-COALESCE one fail alike with the same error, render alike and accept the same tracks |
| CriteriaMeaning.FastIsSafeIff | persistence/criteria_sql.go:370-375 | That holds for all trees, tracks and engines if and only if the names of each tag in the catalogue agree on being numeric |
| CriteriaMeaning.StylesAgree | persistence/criteria_sql.go:133-192 | Both styles give the same error on the same trees, and their queries are refused by the SQL builder alike |
| CriteriaReadings.CompiledFault | persistence/criteria_sql.go:133-334 | Exactly which criteria are refused and with which error; in a tree the first faulty part decides |
| CriteriaReadings.CompiledRendersIff | persistence/criteria_sql.go:638-690 | Exactly which compiled criteria the SQL builder then refuses: those that ask for an order against NULL or a list |
| CriteriaReadings.PatternMatches | persistence/criteria_sql.go:167-174 | Under a definition of LIKE with its two wildcards, ignoring the case of ASCII letters: the patterns built match exactly the values that contain the text, start with it or end with it, for texts without wildcards |
| CriteriaReadings.MatchingReads | persistence/criteria_sql.go:249-284 | So "contains", "starts with" and "ends with" on a text column accept exactly those tracks, negated exactly the others with a value |
| CriteriaReadings.MatchingReadsValues | persistence/criteria_sql.go:249-263 | On a tag or role some value has the text, or, negated, none has |
| CriteriaReadings.NumberReads | persistence/criteria_sql.go:638-736 | A number column, or an annotation counted as its default, against a number, for each of the six operators |
| CriteriaReadings.FlagReads | persistence/criteria_sql.go:710-736 | A boolean annotation is accepted exactly when it, or its default, is the flag asked for |
| CriteriaReadings.TextReads | persistence/criteria_sql.go:676-690 | A text column against a text: equality, and the order of the first differing character |
| CriteriaReadings.NothingStoredReads | persistence/criteria_sql.go:676-690 | A column without a value is accepted only when compared with NULL for equality |
| CriteriaReadings.ValuesRead | persistence/criteria_sql.go:194-199 | "Is" on a tag or role asks for the value among its values, "is not" for its absence |
| CriteriaReadings.NumericTagReads | persistence/criteria_sql.go:393-409 | A numeric tag is compared by the number its text denotes |
| CriteriaReadings.RangeReads | persistence/criteria_sql.go:286-309 | A range accepts exactly the values between its ends, both included |
| CriteriaReadings.PeriodReads | persistence/criteria_sql.go:311-334 | "In the last days" and its negation never both accept a track, and both refuse it exactly when its date equals the first day |
| CriteriaReadings.PlaylistReads | persistence/criteria_sql.go:340-372 | In, or not in, the playlist named |
| CriteriaReadings.MissingReads | persistence/criteria_sql.go:201-247 | A column is missing when nothing is stored, or, if it holds texts, the empty text or one of its empty encodings |
| CriteriaReadings.MissingReadsValues | persistence/criteria_sql.go:214-216 | A tag or role is missing when it has no value |
| CriteriaReadings.PresentReads | persistence/criteria_sql.go:201-247 | isMissing and isPresent with true and false are two conditions, each the negation of the other |
| CriteriaReadings.TreesRead | persistence/criteria_sql.go:133-192 | All accepts what every part accepts, Any what some part does |
| CriteriaReadings.BareWheneverKnown | persistence/criteria_sql.go:692-736 | The optimised form compares the bare column whenever the default and the value can be compared, and falls back on COALESCE otherwise |
| PlaylistTable.SafeIffEveryOrder | db/migrations/20200608153717_referential_integrity.go:129-130 | An UPDATE keeps (playlist_id, id) unique after every single row write, in whatever order rows are visited, exactly when no new position is another row's old or new one |
| PlaylistTable.OrderIsUnique | persistence/playlist_repository.go:283-312 | A playlist read by position is one sequence |
| PlaylistTable.OrderExists | persistence/playlist_repository.go:283-312 | Every table with unique keys yields such a sequence for every playlist |
| PlaylistReorder.TakeOutIsSafe | persistence/playlist_track_repository.go:216-221 | On positive positions the first statement never meets another position |
| PlaylistReorder.ShiftIsSafe | persistence/playlist_track_repository.go:223-235 | For all integer arguments the negating shift meets no other position unless a shifted row and the parked one get in each other's way |
| PlaylistReorder.ShiftIsDoomed | persistence/playlist_track_repository.go:223-235 | If they do, whether one lands on the other or the two trade positions, the statement fails whatever the order of rows |
| PlaylistReorder.FlipIsSafe | persistence/playlist_track_repository.go:237-242 | Flipping the shifted range back meets no other position, unless newPos is so low that the parked row was shifted too and row 999997 is in range |
| PlaylistReorder.FlipIsDoomed | persistence/playlist_track_repository.go:237-242 | In that case the third statement fails whatever the order of rows |
| PlaylistReorder.PutDownIsSafe | persistence/playlist_track_repository.go:244-247 | Placing the track never meets another position |
| PlaylistReorder.AfterShiftIs | persistence/playlist_track_repository.go:209-248 | Where two, three and all four statements take every positive position, for all integer arguments |
| PlaylistReorder.DenseReorderFails | persistence/playlist_track_repository.go:210-248 | On a dense playlist one of the statements fails exactly when pos is one of its places and the shift reaches the sentinel: pos < 10^6 <= newPos with 10^6 tracks, newPos <= 999998 < pos, or newPos <= -999999 with 999998 tracks |
| PlaylistReorder.ReorderMoves | persistence/playlist_track_repository.go:209-248 | Within the playlist Reorder refines "remove at pos, insert at newPos" on the sequence of rows, and positions are again 1..n |
| PlaylistReorder.TracksMove | persistence/playlist_track_repository.go:209-248 | The tracks move likewise |
| PlaylistReorder.ReorderBack | persistence/playlist_track_repository.go:209-248 | Where no statement fails, Reorder(p,q) followed by Reorder(q,p) restores the very table |
| PlaylistReorder.ReorderKeepsDenseIff | persistence/playlist_track_repository.go:210-248 | For all integer arguments for which no statement fails, the positions the four statements leave are 1..n exactly when the arguments are equal or both in the playlist, or pos is not and the shifted range misses it, or a playlist of 999998 tracks has its last one mistaken for the parked one |
| PlaylistSequences.MoveBack | persistence/playlist_track_repository.go:209-248 | Moving an item and moving it back restores the sequence |
| PlaylistSequences.MovedIs | persistence/playlist_track_repository.go:209-248 | The item moved is at its new place and the others follow each other as before |
| PlaylistSequences.FilteredSelects | persistence/playlist_repository.go:368-375 | Filtering selects exactly the items to keep, in order |
| PlaylistNumbering.RenumberSorts | persistence/playlist_repository.go:388-413 | Renumbering maps positions to 1..m in the order of their magnitudes and changes nothing else |
| PlaylistNumbering.RenumberKeepsOrder | persistence/playlist_repository.go:388-413 | On positive positions it preserves the order |
| PlaylistNumbering.RowNumberAt | persistence/playlist_repository.go:402-405 | ROW_NUMBER() by descending position is the index from the end |
| PlaylistNumbering.RowNumbersAreSafe | persistence/playlist_repository.go:406-408 | The renumbering UPDATE never meets another position in any order |
| PlaylistNumbering.NegateIsSafe | persistence/playlist_repository.go:393-394 | The negating UPDATE never meets another position unless two rows lie at opposite positions |
| PlaylistNumbering.NegateIsDoomed | persistence/playlist_repository.go:393-394 | With two rows at opposite positions it fails in any order |
| PlaylistNumbering.DeleteFilters | persistence/playlist_track_repository.go:191-198 | Deleting positions of a dense playlist drops exactly those places of its tracks |
| PlaylistNumbering.WithoutPlacesSelects | persistence/playlist_track_repository.go:191-198 | Dropping places selects exactly the items at the others, in order |
| PlaylistNumbering.OrphansFilter | persistence/playlist_repository.go:368-375 | Dropping orphan rows keeps exactly the tracks whose file exists, in order |
| PlaylistNumbering.FilledTwice | persistence/playlist_repository.go:231-245 | Filling consecutive positions in two goes is filling them once |
| PlaylistNumbering.FreeInParts | persistence/playlist_repository.go:231-245 | They can be filled at once exactly when each part can be in its turn |
| PlaylistNumbering.FilledTracks | persistence/playlist_repository.go:231-245 | Tracks inserted at consecutive free positions are one block of the playlist, between the tracks before and those after those positions |
| PlaylistStore.Store.UpdateRows | persistence/playlist_repository.go:406-408 | An UPDATE as a loop writing rows in arbitrary order: it succeeds if safe, fails and undoes its writes if the result would not be unique or two rows trade positions, and keeps keys unique |
| PlaylistStore.Store.UpdateIds | persistence/playlist_track_repository.go:216-218 | The same for a SET and WHERE clause on positions |
| PlaylistStore.Store.Reorder | persistence/playlist_track_repository.go:209-248 | On positive positions and for all integer arguments: succeeds exactly when the arguments are equal or neither the second nor the third statement fails; the state it leaves, also after a failure |
| PlaylistStore.Store.ReorderTrack | core/playlists/playlists.go:283-290 | In a transaction, for all integer arguments: exactly when it fails, then changing nothing; exactly when every playlist is 1..n afterwards, failures included; and what the tracks are then |
| PlaylistStore.ReorderPastTheEnd | persistence/playlist_track_repository.go:210-248 | A run of the code that leaves a gap: three tracks, the first moved to place 5 |
| PlaylistStore.ReorderMeetsSentinel | persistence/playlist_track_repository.go:210-248 | A run whose valid move fails and is rolled back: a million tracks, the fifth moved to the end |
| PlaylistStore.Store.Renumber | persistence/playlist_repository.go:388-413 | Succeeds exactly when no two rows lie at opposite positions |
| PlaylistStore.Store.Delete | persistence/playlist_track_repository.go:191-198 | The tracks left are those whose place is not listed, in order; every playlist stays dense and the others unchanged |
| PlaylistStore.Store.DeleteAll | persistence/playlist_track_repository.go:200-207 | Empties the playlist and nothing else |
| PlaylistStore.Store.InsertChunk | persistence/playlist_repository.go:235-245 | One INSERT of consecutive positions: succeeds exactly when all of them are free, and then fills just those; a conflict undoes the whole statement |
| PlaylistStore.Store.AddTracks | persistence/playlist_repository.go:231-247 | Inserting in chunks of 200 succeeds exactly when all positions are free and fills what one insert would; a failure keeps the chunks before the first that meets a track |
| PlaylistStore.Store.MaxId | persistence/playlist_track_repository.go:150-156 | The highest position of a dense playlist is its length |
| PlaylistStore.Store.Add | persistence/playlist_track_repository.go:143-159 | Appends below 2^31-1 tracks; at 2^31-1 the int32 sum wraps, so up to 2^31+1 tracks are put before all others and the playlist is 1..n no more; beyond, it fails without change. Exactly when it succeeds and exactly when every playlist stays 1..n |
| PlaylistStore.AddWraps | persistence/playlist_track_repository.go:150-158 | A run of the code that wraps: the track added after 2^31-1 others becomes the first |
| PlaylistStore.Store.UpdatePlaylist | persistence/playlist_repository.go:220-229 | Replaces the tracks of one playlist, positions 1..n |
| PlaylistStore.Store.RemoveOrphans | persistence/playlist_repository.go:355-386 | In any order of playlists: every existing playlist keeps just its tracks with a file, in order and dense; rows of unknown playlists are untouched |
| PlaylistRuns.Perform | persistence/playlist_track_repository.go:143-248 | Each operation keeps every playlist 1..n exactly when it is harmless, which lengths and arguments alone decide, and then does to a plain sequence of tracks per playlist what it means |
| PlaylistRuns.Run | persistence/playlist_track_repository.go:143-248 | After any run of harmless operations, files coming and going in between, every playlist is 1..n and has the tracks the operations mean |
| PlaylistRuns.RunsAreHarmless | persistence/playlist_track_repository.go:143-248 | From an empty library every run is harmless whose moves name places of their playlists and which adds fewer than 2^31-1 tracks |
| PlaylistRuns.RunFromEmpty | persistence/playlist_track_repository.go:143-248 | So such a run leaves every playlist 1..n with the tracks it should have |
| PlaylistRuns.MoveBackUnlessSentinel | persistence/playlist_track_repository.go:209-248 | A move within the playlist is undone by the opposite move, which fails exactly when the track was moved to place 999999 |
| LyricsVoices.KeepsVoiceIff | model/lyrics_lyricsfile.go:128-173 | For entries in any order: a line still has its own voice when a later one starts if and only if no line in between, or that one, starts at or after its end |
| LyricsVoices.UnfreedLinesDiffer | model/lyrics_lyricsfile.go:128-173 | Two such lines never share a voice |
| LyricsVoices.OverlappingLinesDiffer | model/lyrics_lyricsfile.go:128-173 | Among entries sorted by start that covers all that overlap, so overlapping lines never share a voice |
| LyricsVoices.VoicesMatchDepth | model/lyrics_lyricsfile.go:140-149 | The voices used number exactly the greatest overlap depth |
| LyricsVoices.GreedyIsOptimal | model/lyrics_lyricsfile.go:140-149 | No colouring that keeps overlapping lines apart uses fewer colours |
| LyricsVoices.SoundingLinesHoldVoices | model/lyrics_lyricsfile.go:133-139 | When a line starts, the active voices are exactly those of the lines still sounding |
| LyricsVoices.UnsortedLinesMayShare | model/lyrics_lyricsfile.go:133-139 | Unsorted overlapping lines may share a voice: a concrete file, in which a line in between starts after the end of the first |
| LyricsfileLines.FreeVoice | model/lyrics_lyricsfile.go:140-146 | The inner search ends, by the number of busy voices left to pass, at the lowest free voice |
| LyricsfileLines.BuildLyricsfileLines | model/lyrics_lyricsfile.go:104-283 | Each line has its start; its own end, else its last word's, else the next start; the entry's text, or its words one after the other with a cue for each at its place. For sorted entries agents are listed exactly when some line has words and two sound together, every cue then has a listed one, and lines that sound together have different ones |
| LyricsfileLines.LastWordSoundsOn | model/lyrics_lyricsfile.go:205-211 | A last word that sounds past the start of the next line makes the two lines sound together |
| LyricsfileLines.MonophonicHasNoAgents | model/lyrics_lyricsfile.go:175-184 | For sorted entries that is when two lines overlap and some line has words |
| LyricsfileLines.WordsToLineCues | model/lyrics_lyricsfile.go:233-283 | The line text is its words joined; each cue has its word, offsets, and end (its own, else the next start) |
| LyricsfileLines.WordCueFitsIff | model/lyrics_lyricsfile.go:250-274 | A cue is the slice of the line at its byte offsets exactly when its word is not empty |
| LyricsfileLines.WordOffsetInsideIff | model/lyrics_lyricsfile.go:233-238 | Offsets land inside the line exactly when that word or a later one is not empty, which is less than the comment in the source promises |
| LyricsfileLines.TrailingEmptyWordFallsOutside | model/lyrics_lyricsfile.go:253-259 | A trailing empty word whose offset is past the end of the line |
| LyricsfileLines.WordCuesFit | model/lyrics_lyricsfile.go:250-274 | With no empty word all cues fit, in order and disjoint |
| LyricsNormalize.NormalizeCueEnds | model/lyrics_normalize.go:138-171 | If every cue can have an end, each gets its own, else the next start, else the fallback, not after the next start and above all not before its own; otherwise all are cleared. Nothing else changes |
| LyricsNormalize.ResolvedEndIs | model/lyrics_normalize.go:144-160 | That rule for a single cue, whatever the starts |
| LyricsNormalize.EndsAllOrNone | model/lyrics_normalize.go:162-169 | An end is set exactly when every cue of the group can have one: its own, a next start or the fallback |
| LyricsNormalize.NormalizeIsIdempotent | model/lyrics_normalize.go:138-171 | Normalising twice with one fallback is normalising once, whatever the starts |
| LyricsNormalize.EndsLieBetween | model/lyrics_normalize.go:144-160 | For ascending starts: start <= end <= next start |
| LyricsNormalize.EndsAreClamped | model/lyrics_normalize.go:144-160 | For ascending starts an own end is clamped between its start and the next one; a missing one reaches to the next start, or the fallback on the last cue |
| LyricsNormalize.NormalizeCueEndsByAgent | model/lyrics_normalize.go:97-127 | Grouping, per-group normalisation and reassembly compute the specified result, on the fast path too |
| LyricsNormalize.ByAgentNormalizesEach | model/lyrics_normalize.go:92-127 | For every agent its cues of the result are its input cues normalised alone |
| LyricsNormalize.EachDeterminesByAgent | model/lyrics_normalize.go:92-127 | That, with agents in place, determines the result |
| LyricsNormalize.OneAgentNeedsNoGroups | model/lyrics_normalize.go:108-112 | With one agent the grouped form is the plain one |
| LyricsNormalize.NormalizeLineTiming | model/lyrics_normalize.go:45-82 | A line keeps the times it has; missing ones are the earliest start and the latest end of its cues, where a cue without an end counts with its start |
| LyricsNormalize.EarliestIsLeast | model/lyrics_normalize.go:50-59 | The earliest start is some cue's and no later than any |
| LyricsNormalize.LatestIsGreatest | model/lyrics_normalize.go:61-71 | The latest end (or start where there is none) is some cue's and no earlier than any |
| LyricsNormalize.NormalizeCueLines | model/lyrics_normalize.go:17-43 | In every line each agent's cues are resolved by themselves, with the line's own end as the fallback, else the start of the next line, else none; then the line's missing times are taken from them |
| LyricsText.TrimIsSlice | model/lyrics_ttml.go:526-533 | Trimming Unicode white space is cutting the UTF-8 bytes at the computed offsets, also for all-blank text |
| LyricsText.TrimIs | model/lyrics_ttml.go:533 | Trimming takes all white space off both ends and nothing else |
| LyricsText.SpacesAre | model/lyrics_ttml.go:526-533 | What counts as white space is the 25 code points with the Unicode property White_Space |
| LyricsText.EncodeCharDecodes | model/lyrics_ttml.go:520-553 | The byte offsets count UTF-8: every character is encoded in one to four well-formed bytes that decode to it (RFC 3629) |
| LyricsText.CutCuesFit | model/lyrics_ttml.go:534-550 | Cues cut from ordered stretches are the slices of the trimmed text at their offsets, in order and disjoint |
| LyricsText.CuesComeFromSegments | model/lyrics_ttml.go:538-547 | Every cue keeps the times and agent of a stretch and lies within it |
| LyricsText.CutCueIsOwn | model/lyrics_ttml.go:535-550 | Cutting one part of a text at the bounds of the trimmed text leaves just what trimming leaves of that part, at its place in the trimmed text |
| LyricsText.CutCuesAreOwn | model/lyrics_ttml.go:535-550 | So the cursor gives every timed part of a line the cue of its own text, and no other |
| LyricsText.OwnCuesSpell | model/lyrics_lrc.go:219-263 | When every part is timed the values of the cues, joined, are the trimmed text |
| LyricsText.OwnCueIff | model/lyrics_ttml.go:535-550 | The cues of a line are just those of its parts |
| LyricsTtml.CollapseWhitespace | model/lyrics_ttml.go:568-587 | No tab, line feed or carriage return is left and no two blanks in a row; every other character is kept, in order |
| LyricsTtml.CollapseIsIdempotent | model/lyrics_ttml.go:568-587 | Collapsing twice is collapsing once |
| LyricsTtml.CollapseStableUnderDrop | model/lyrics_ttml.go:502-513 | It is stable under dropping a leading blank, so the second collapsing changes nothing |
| LyricsTtml.CollapseAppend | model/lyrics_ttml.go:503-507 | Collapsing a concatenation piece by piece |
| LyricsTtml.CollapsedOne | model/lyrics_ttml.go:568-587 | One character collapses to a blank if it is white space, else to itself; with the law for concatenations that settles every text |
| LyricsTtml.RawLinesAppend | model/lyrics_ttml.go:492-518 | The lines of two piece lists put together are those of each, the last of the one joined to the first of the other |
| LyricsTtml.SplitPiecesByBreak | model/lyrics_ttml.go:492-518 | Splitting at breaks with white space collapsed across pieces |
| LyricsTtml.SplitCollapsesWholeLines | model/lyrics_ttml.go:492-518 | For every piece list, each line's runs joined are the whole text between two breaks collapsed at once, less a leading blank |
| LyricsTtml.PieceHasRun | model/lyrics_ttml.go:492-518 | Every piece with some text becomes a run of its line, with its cue and its text collapsed, perhaps less a leading blank |
| LyricsTtmlLines.FinalizeLogicalLine | model/lyrics_ttml.go:520-553 | The trimmed text and the cues cut from the timed runs |
| LyricsTtmlLines.FinalizedIsOwn | model/lyrics_ttml.go:520-553 | On collapsed runs the byte cursor agrees with the re-concatenated line: the cues are the runs' own, and fit the trimmed text |
| LyricsTtmlLines.LineCueIff | model/lyrics_ttml.go:535-550 | The cues of a line are exactly those of its timed runs, less runs that trimming leaves nothing of: each has its run's times and agent, its run's own text as trimming leaves it, and its place in the line |
| LyricsTtmlLines.TimedRunHasCue | model/lyrics_ttml.go:538-547 | A timed run that is not all white space has its cue; with text on either side the value is the whole run |
| LyricsTtmlLines.CueHasTimedRun | model/lyrics_ttml.go:538-547 | No cue is invented: even on runs that are not collapsed each has the times and agent of a timed run |
| LyricsTtmlLines.BuildLineFromPieces | model/lyrics_ttml.go:445-476 | The value is the collapsed and trimmed text of each line between breaks, from the first that is not empty to the last, with line feeds between them and none at either end; the cues fit it |
| LyricsTtmlLines.BuiltValue | model/lyrics_ttml.go:445-476 | That value for every piece list |
| LyricsTtmlLines.LineHasNoLineFeed | model/lyrics_ttml.go:568-587 | No line has a line feed of its own, so the lines can be told apart in the value |
| LyricsTtmlLines.BuiltCuesFit | model/lyrics_ttml.go:445-476 | For every piece list each cue is exactly the slice of the built value at its inclusive offsets; offsets are in range, increasing and disjoint across line breaks |
| LyricsTtmlLines.TimedPieceIsBuilt | model/lyrics_ttml.go:445-553 | For every piece list: every timed piece with some text has a cue in the built value, with its times and agent, its own collapsed text, and its place in the line it was written on |
| LyricsTtmlLines.BuiltCueHasRun | model/lyrics_ttml.go:445-553 | No cue of the built value is anything else |
| LyricsTtmlLines.JoinedCueIff | model/lyrics_ttml.go:458-473 | The cues of the joined lines are just those of the lines, moved to where each line begins |
| LyricsTtmlLines.LineTextIsTrimmedCollapse | model/lyrics_ttml.go:520-533 | Each line's text is what stands between two breaks, collapsed as a whole and trimmed |
| LyricsAgents.ResolveAgents | model/lyrics_ttml.go:703-781 | The agents are those used, in order of first use, with their names and roles. The main one is the first used that is neither a group nor in the background; else "main", listed first if need be, when some cue has no agent; else the first not in the background; else the first. Cues without an agent get it |
| LyricsAgents.EveryCueHasAListedAgent | model/lyrics_ttml.go:753-778 | Afterwards every cue names a listed agent, no agent is listed twice, and exactly one has the role "main" |
| LyricsAgents.BackgroundIsMainOnlyAlone | model/lyrics_ttml.go:730-751 | A background agent becomes the main one exactly when all agents are background ones and no cue lacks an agent |
| LyricsLrc.ParseEnhancedLine | model/lyrics_lrc.go:176-270 | A line without a marked word keeps all of its text, trimmed, and has no cues; once some marker has a word the line is the text after readable markers, trimmed, and the cues spell it |
| LyricsLrc.LineCuesFit | model/lyrics_lrc.go:240-263 | For every marked-up line each cue is exactly the slice of the trimmed line at its inclusive offsets, in order and disjoint |
| LyricsLrc.LineCuesAreOwn | model/lyrics_lrc.go:219-263 | Each cue carries just its own marker's word, as trimming the line leaves it; only the last is given an end |
| LyricsLrc.CuesSpellLine | model/lyrics_lrc.go:219-270 | Once some marker has a word, the values of the cues, joined, are the line |
| LyricsLrc.CueEnds | model/lyrics_lrc.go:219-267 | No cue has an end but the last, and that only on a line that closes with a readable marker, at its time |
| LyricsLrc.MarkedWordsHaveCues | model/lyrics_lrc.go:219-263 | Every cue is some marker's, at its time, on its word and in its place, and every readable marker followed by a word has its cue |
| LyricsLrc.BlankLineHasNoCues | model/lyrics_lrc.go:241-255 | An all-white-space line yields no cues |
| LyricsLrc.ShiftELRCCues | model/lyrics_lrc.go:289-312 | Every start and end that is set is later by the offset, modulo 2^64 where int64 would overflow; nothing else changes |
| LyricsLrc.ShiftKeepsFit | model/lyrics_lrc.go:289-312 | A shift keeps values and offsets |
| LyricsLrc.ShiftTwice | model/lyrics_lrc.go:289-312 | Two shifts are one, even where times wrap |
| LyricsLrc.ShiftBack | model/lyrics_lrc.go:289-312 | A shift is undone by its opposite |

## Left out

- Task queue, database errors: a write fails in the model only once shutdown has begun, when the context is cancelled.
- Task queue, timers: the rate limiter, the worker signal, the poll ticker and the shutdown timeout decide when steps happen, not which steps can; the model allows every interleaving.
- Task queue, a second service started while a timed-out shutdown still runs: one instance at a time, with crash and restart as explicit steps.
- Task queue, the `queues` table: it is written but never read back; log messages, schema migrations and the plugin call itself.
- TaskQueueService.Service.ProcessTask: a shutdown that begins between the check after the callback and the write is covered by the protocol steps alone.
- Criteria, rendering: SQL text, placeholders and the textual replacement of `value` in subqueries; conditions are trees, and a condition is only said to render or not.
- Criteria, typing: column affinity and numbers or booleans given as text; compared values are already typed, so a text is one that denotes neither.
- Criteria, several fields in one condition: each leaf names one field, as the JSON form does; field-name case folding, sorting, joins and the visibility filter inside the playlist subquery are not modelled.
- CriteriaMergeLoop.AddGroups: picks the least key of those left instead of sorting them first.
- Playlists: `refreshCounters` (float32 aggregates), track loading, permissions, smart-playlist refresh, and who opens transactions, apart from the one around Reorder.
- PlaylistRuns.Run: creating and deleting playlists, which changes what removing orphans visits, is not an operation of these runs.
- PlaylistStore.Store.Delete: takes position numbers where the repository takes them as text.
- Lyrics, decoding: sanitising, and the YAML, XML and regular-expression engines; the models start from words, pieces and markers.
- LyricsAgents.ResolveAgents: takes the trimmed agent ids of all cues as one list.
- LyricsTtmlLines.FinalizeLogicalLine: the program sanitises the runs once more when it joins them, and sanitising is not idempotent (it turns `&lt;b&gt;` into `<b>`); the agreement of cursor and line assumes that this second pass leaves the runs alone, as collapsing is proved to.
- LyricsLrc.ParseEnhancedLine: the enclosing line loop of the LRC parser (tags, timestamps, sorting of repeated lines) is not modelled.
- LyricsTtmlLines.BuildLineFromPieces: timing and language inheritance of TTML elements, translations and pronunciations are not modelled.
- LyricsNormalize.NormalizeCueLines: not idempotent as a whole, and not meant to be, since a line's own end set in the first pass becomes the fallback of a second.
