# Verified model of subscription, delivery and queue logic

The repository keeps a list of film and series subscriptions, collects share links and magnet
links for them, decides which links are needed, and delivers them. This project models the
parts in which order, state and repetition matter, and proves what they promise for all inputs
and all runs. Modules follow the program's components:

- `ShareLinks`, `LinkText`: the 115 link recogniser, its parser and canonical printer, and the dedupe key; what
  the patterns match, by characters.
- `DeliveryState`, `FailureWords`, `Delivery`, `DeliverySafety`, `DeliveryRetry`: failure classes, the delivery
  protocol as interleaved calls on event loops, its safety laws, and automatic retries with backoff.
- `JobQueue`, `JobWorker`: the `background_jobs` table and any number of workers over it.
- `DuplicateCheck`, `AttachLoop`: the indexed and memoised duplicate check, and the loop that
  saves a batch of results with it.
- `EpisodeKeys`, `EpisodeCodec`, `EpisodeRuns`, `EpisodePacks`, `Completion`: expected, owned and
  missing episodes, their stored form, the two run-length encoders, pack inference, the completion
  test and the decision on candidates.
- `SchemaMerge`: the migration that makes the unique indexes possible.
- `ResourceGroups`, `ResourceLines`, `ResourceListing`: the two-phase grouping of rows for display, which rows
  share a line, and what the lines list.
- `CssMinifier`, `CssScanner`: the string-aware CSS minifier, and the pieces its scanner takes.
- `HaisouBudget`, `HaisouCache`: the budget of paid calls and the bounded caches beside it.
- `RequestGate`: the spacing gate of Telegram requests.
- `PyText`, `IntSets`: Python's whitespace, options, least elements.

Code that updates state is modelled by methods and classes over fields, proved equal to functions
of the old state; the laws are lemmas about those functions. Concurrency (calls on an event loop,
workers, threads of the budget, the sleeping caller of the gate) is a transition system whose runs
are sequences of steps. Clocks, regular expressions other than the link patterns, title
similarity, and the outcome of a push are parameters.

Some laws hold only under a condition that the code does not state. Each is proved with its
exact condition, or with a run that breaks it:

- A call decides on the row as it loaded it. On any number of event loops, every step that a run
  could take keeps `delivered` and pushes no key again, however the pushes under way end, exactly if
  no two pushes of a key or a row overlap and every call that enters to push finds its row
  undelivered (`DeliverySafety.SettlesRunExactly`). Where the calls of a key share a loop, the locks
  keep its pushes apart (`DeliverySafety.LocksKeepApart`); what remains is that the row is undelivered
  at the entry, and that pushes of a row without a key do not overlap
  (`DeliverySafety.SettlesOnOneLoopExactly`). One call at a time per resource is enough
  (`DeliverySafety.ExclusiveIsSafe`). One pending row and two calls break it
  (`DeliverySafety.SharedResourceReached`), and so do two rows of one key on two loops
  (`DeliverySafety.TwoLoopsPushTwice`).
- A final failure is retried exactly when the 500 stored characters of its message are blank
  (`DeliveryRetry.FinalRetriedOnlyIfBlank`), and such messages exist
  (`DeliveryState.BlankFinalExists`). A selection limit of 0 stands for 20. Any other failure is retried exactly
  if its stored 500 characters are of a class that is (`DeliveryRetry.RetriedExactly`); a fallback candidate
  that failed without an error is not (`FailureWords.SilentCandidateNeverRetried`).
- Each held job has one holder and is not waiting, exactly if no sweep finds a held job stale
  (`JobWorker.SingleHolderExactly`, `JobWorker.StaleJobReached`); and its row is running, exactly if no
  held job is marked as failed from outside (`JobWorker.HeldRunningExactly`,
  `JobWorker.SupersededReached`).
- The minifier trims a blank end of a string that is never closed, and changes nothing else of the
  token stream (`CssMinifier.StreamPreservedExactly`, `CssMinifier.OpenBlankTrimmed`).
- A count argument that disagrees with the row completes a series that misses episodes
  (`Completion.CountArgumentOverrules`).
- Runs expand back to their keys only without season 0, non-positive episodes and runs longer than 121
  (`EpisodeRuns.ExpandExactly`); a count above 121 is lost in pack inference
  (`EpisodePacks.LongCountLost`).
- The rejection `episodes_not_needed` is never given by the decision's own branch
  (`Completion.NotNeededNeverGiven`).
- The clock is read before the lock is taken. Twice the maximum bounds every interval up to the
  window less the worst delay between reading and rolling, and no longer one
  (`HaisouBudget.BoundedExactly`): the whole window exactly if every reading is acted on at once
  (`HaisouBudget.FullWindowExactly`). On a clock that reads 0 nothing is bounded
  (`HaisouBudget.ZeroClockUnbounded`).
- The gate's first pass on a loop forgets a cooldown noted while it slept
  (`RequestGate.FirstPassForgets`); a wait obeys an earlier cooldown exactly if what the gate says
  when it begins does (`RequestGate.CooldownKeptExactly`, `RequestGate.ForgottenCooldownExactly`). The
  interval is bounded exactly when the default is at most the maximum (`RequestGate.IntervalBounded`).
- A merged row lists the ids of all rows of its class exactly if every link group after the first is
  a single row and no row from the third on takes the lead (`ResourceGroups.GroupIdsCompleteExactly`,
  `ResourceGroups.GroupIdsIncomplete`). Which ids and episodes it lists is told from the rows alone
  (`ResourceListing.IdsListedExactly`, `ResourceListing.EpisodesListedExactly`).

## Model

| member | source | states |
|---|---|---|
| ShareLinks.ParsePrint | app/services/adapters/pan115.py:33-53 | parsing the printed form of any share gives its two codes back, and printed shares are fixed points of normalising and canonicalising |
| ShareLinks.CanonicalPrints | app/services/subscription/resource/resources.py:13-20 | the canonical form of every recognised link is its parsed share, printed; normalising is idempotent and keeps the share |
| ShareLinks.CanonicalIdempotent | app/services/subscription/resource/resources.py:13-20 | canonicalising twice equals canonicalising once, on every text |
| ShareLinks.CanonicalKeepsShare | app/services/subscription/resource/resources.py:13-20 | the canonical link has the share code and receive code of the original |
| ShareLinks.ShareKey | app/services/subscription/resource/resources.py:23-33 | the dedupe key of a share link without magnet hash is its share, printed |
| ShareLinks.KeysAgreeExactly | app/services/subscription/resource/resources.py:23-33 | two share links have equal keys exactly when both codes agree |
| ShareLinks.KeyOfValue | app/services/subscription/resource/resources.py:23-33 | the value of a non-magnet key, taken as a URL, has that same key |
| LinkText.HeadExactly | app/services/adapters/pan115.py:27-30 | the head of a share link matches exactly the twelve spellings of scheme, `www.` and host, in any letter case |
| LinkText.RecognisedExactly | app/services/adapters/pan115.py:33-40 | a text is recognised as a share exactly if such a head with a character of a code behind it stands in it |
| LinkText.ParseExactly | app/services/adapters/pan115.py:33-53 | of a recognised text the leftmost share is read: its whole run of code characters, and the receive code of two to twelve characters under any of the three names behind it |
| LinkText.MagnetExactly | app/services/subscription/resource/resources.py:23-33 | a link has a magnet key exactly if a marker with at least 32 hash characters behind it stands in it |
| LinkText.MagnetKeyIs | app/services/subscription/resource/resources.py:23-33 | the value of the key is the hash of at most 40 characters behind the leftmost marker, in small letters |
| LinkText.MagnetKeysAgreeExactly | app/services/subscription/resource/resources.py:23-33 | two magnet links have equal keys exactly if these hashes are equal up to letter case |
| LinkText.KindsExactly | app/services/subscription/resource/resources.py:23-33 | a blank text has no key; a magnet goes before a share, and a text with neither is its own key, stripped |
| DeliveryState.FastPathAgrees | app/services/subscription/delivery/state.py:30-63 | the exact-URL query and the full scan agree on whether a delivered twin exists, and what is found is one |
| DeliveryState.FinalSurvivesTruncation | app/services/subscription/delivery/state.py:80-158 | reclassifying the stored 500 characters of a final error gives final, or temporary exactly if they are blank |
| DeliveryState.BlankFinalExists | app/services/subscription/delivery/state.py:80-158 | 500 blanks before one letter are a final error whose stored part is blank |
| FailureWords.ClassesExactly | app/services/subscription/delivery/state.py:105-158 | the class of every message, by the words it says at any place and in any letter case; words that contain another of their list never matter |
| FailureWords.StuckRetriedExactly | app/services/subscription/search/service.py:181-192 | a row that hung while pending is retried from a minute after it was marked on |
| FailureWords.SilentCandidateNeverRetried | app/services/subscription/search/selection_fallback.py:110-125 | a failed candidate without an error of its own is marked as retryable, but its error text makes it final: it is never retried |
| DeliverySafety.SettlesExactly | app/services/subscription/delivery/service.py:49-83 | in any state, however the pushes under way end, every next step keeps `delivered` and pushes no key again, exactly if no call pushes a delivered row or a pushed key and no two pushes of a key or a row overlap |
| DeliverySafety.SettlesRunExactly | app/services/subscription/delivery/service.py:33-83 | at every point of a run on any number of event loops this holds exactly if no two pushes of a key or a row ever overlap and every call that enters to push finds its row undelivered |
| DeliverySafety.FreshExactly | app/services/subscription/delivery/service.py:33-62 | where pushes do not overlap, no call ever pushes a delivered row exactly if every call that enters to push finds its row undelivered |
| DeliverySafety.LocksKeepApart | app/services/subscription/delivery/state.py:21-27 | where the calls of a key share a loop, the locks keep any two pushes of the key from overlapping, in every run |
| DeliverySafety.SettlesOnOneLoopExactly | app/services/subscription/delivery/service.py:33-83 | there, every step is safe however the pushes under way end, exactly if every call that enters to push finds its row undelivered and pushes of a row without a key do not overlap |
| DeliverySafety.SafeOnOneLoopExactly | app/services/subscription/delivery/service.py:40-83 | where the calls of a key share a loop, every step a run could take is safe exactly if no call ever pushes a delivered row |
| DeliverySafety.ExclusiveIsSafe | app/services/subscription/delivery/service.py:33-47 | one call at a time per resource and one loop per key make every step safe, however the pushes under way end, and each key is pushed successfully at most once |
| DeliverySafety.OnePushPerKey | app/services/subscription/delivery/service.py:33-83 | on any loops, where pushes of a key do not overlap and no call pushes a delivered row, each key is pushed successfully at most once, and what was pushed is delivered under that key |
| DeliverySafety.OnePushOnOneLoop | app/services/subscription/delivery/service.py:40-83 | the same where the calls of a key share a loop: the locks keep its pushes apart |
| DeliverySafety.DeliveredForever | app/services/subscription/delivery/service.py:33-107 | on any loops, where no call pushes a delivered row, what was pushed is delivered under its key, and a delivered resource is delivered at every later point |
| DeliverySafety.NoPushBesideTwin | app/services/subscription/delivery/service.py:49-76 | where pushes of a key do not overlap and no call pushes a delivered row, no delivered row has the key of a push under way |
| DeliverySafety.NeverStuck | app/services/subscription/delivery/state.py:21-27 | in every run, as long as a call is in flight, some call can take its next step |
| DeliverySafety.RivalGoesStale | app/services/subscription/delivery/service.py:40-62 | of two calls on one resource, the one that loaded it before the other's push succeeded pushes the delivered row |
| DeliverySafety.SharedResourceLosesDelivery | app/services/subscription/delivery/service.py:40-83 | it can fail, and undo `delivered` |
| DeliverySafety.SharedResourcePushesTwice | app/services/subscription/delivery/service.py:40-83 | it can succeed: one key is pushed twice |
| DeliverySafety.SharedResourceReached | app/services/subscription/delivery/service.py:33-47 | three steps from one new row, for every link with a key, in an order that one event loop produces, lead to such a pair of calls |
| DeliverySafety.TwoLoopsPushTwice | app/services/subscription/delivery/state.py:21-27 | two new rows of one key on two loops are both pushed: their pushes overlap, though no call pushes a delivered row |
| Delivery.ReturnsDelivered | app/services/subscription/delivery/service.py:33-83 | an undisturbed call returns true exactly when it leaves its row delivered, and leaves no call or lock behind |
| Delivery.CallOutcome | app/services/subscription/delivery/service.py:49-107 | what an undisturbed call leaves of its row, in columns: nothing new if it was delivered, skipped if it is not needed, delivered if it has a delivered twin, else the outcome of its push |
| Delivery.FirstAttempt | app/services/subscription/delivery/service.py:33-83 | the first undisturbed attempt on a new, needed link without a delivered twin leaves it delivered without a trace, or failed once with the status and the cut error of its message |
| Delivery.Service.constructor | app/services/subscription/delivery/state.py:10-10 | a new service has no call in flight and no lock held |
| Delivery.Service.LoadResource | app/services/subscription/delivery/state.py:13-18 | performs the load step, and reports whether the row exists |
| Delivery.Service.EnterLocked | app/services/subscription/delivery/service.py:49-76 | performs the entry step and returns true for a delivered row or twin, false for a skipped row, nothing if a push starts |
| Delivery.Service.MarkFailedIfPending | app/services/subscription/search/service.py:154-165 | after a failed delivery, a row that is still pending is marked as failed; it keeps an earlier error, and takes 500 characters of the new one |
| Delivery.Service.MarkStuck | app/services/subscription/search/service.py:181-192 | a row that hangs while pending is marked as failed with the fixed error |
| Delivery.Service.MarkCandidateFailedIfPending | app/services/subscription/search/selection_fallback.py:114-125 | a failed candidate that is still pending can be retried; its own error goes before an earlier one, and that before the default |
| Delivery.Service.FinishPush | app/services/subscription/delivery/state.py:80-93 | performs the finish step: status, retry count, truncated error, release of the lock |
| Delivery.Service.DeliverResource | app/services/subscription/delivery/service.py:33-47 | one undisturbed call has the outcome and the return value of its three steps |
| DeliveryRetry.Select | app/services/subscription/delivery/retry.py:107-135 | decides every listed row up to the first point where the cap is filled; actionable rows never exceed max(1, min(limit, 100)) |
| DeliveryRetry.CapNearest | app/services/subscription/delivery/retry.py:133-133 | the cap is the number from 1 to 100 nearest to the limit, and 20 without one |
| DeliveryRetry.RetriedExactly | app/services/subscription/delivery/retry.py:107-154 | after a failed attempt the row is listed exactly if the link is not invalid, and acted on exactly from the end of a pause on, in seconds by class and by failures in a row, if the stored 500 characters are neither invalid nor final |
| DeliveryRetry.ShortFailureRetried | app/services/subscription/delivery/state.py:80-102 | a failure of at most 500 characters that is neither invalid nor final is retried some time |
| DeliveryRetry.GivenUpRetriedExactly | app/services/subscription/delivery/retry.py:79-154 | the same for a row given up while pending, by the error it then shows; an invalid one is reported as such, a final one as paused |
| DeliveryRetry.FinalReported | app/services/subscription/delivery/retry.py:120-129 | a final failure is reported as paused, and from the third one on as exhausted |
| DeliveryRetry.ErrorlessRetriedExactly | app/services/subscription/delivery/retry.py:114-145 | a listed row without an error is retried as after a temporary one |
| DeliveryRetry.FailuresTakeTheirTime | app/services/subscription/delivery/retry.py:137-154 | consecutive failures of a resource take at least the sum of its successive backoff windows, in any run over any resources |
| DeliveryRetry.LateRetriesAreRare | app/services/subscription/delivery/retry.py:90-98 | after three retries each further failed attempt costs at least half an hour |
| DeliveryRetry.InvalidNeverRetried | app/services/subscription/delivery/retry.py:114-121 | a resource that last failed as invalid is never picked again |
| DeliveryRetry.FinalRetriedOnlyIfBlank | app/services/subscription/delivery/retry.py:107-154 | after a final failure a row can ever be picked exactly if its stored error is blank |
| DeliveryRetry.FinalNeverRetried | app/services/subscription/delivery/retry.py:107-154 | a final failure with a stored error that is not blank ends the automatic retries |
| JobQueue.JobTable.constructor | app/services/jobs.py:21-31 | the table starts empty with its id counter at zero |
| JobQueue.JobTable.CreateJob | app/services/jobs.py:21-31 | adds one queued row under the next id and returns it |
| JobQueue.JobTable.ClaimNextJob | app/services/jobs.py:164-216 | takes the lowest queued id of the kinds and marks it running; nothing if there is none |
| JobQueue.JobTable.TouchHeartbeat | app/services/jobs.py:73-86 | renews heartbeat and worker of a running row, leaves any other row alone |
| JobQueue.JobTable.MarkDone | app/services/jobs.py:47-57 | finishes the row whatever its status |
| JobQueue.JobTable.MarkFailed | app/services/jobs.py:60-70 | fails the row with the error whatever its status |
| JobQueue.JobTable.RequeueIfStale | app/services/jobs.py:228-249 | returns one running row to the queue exactly if its stamp is old enough |
| JobQueue.JobTable.RequeueStale | app/services/jobs.py:219-250 | returns exactly the stale running rows to the queue and counts them |
| JobQueue.FinishedForever | app/services/jobs.py:164-250 | a finished job stays finished under every sequence of operations and is never started again |
| JobQueue.StartsInOrder | app/services/jobs.py:164-216 | without requeues, jobs of each kind start in strictly increasing id order |
| JobQueue.HeartbeatBuys | app/services/jobs.py:73-86 | after a claim or a heartbeat a running job becomes stale exactly when the maximum age has passed |
| JobQueue.SweepExact | app/services/jobs.py:219-250 | a sweep leaves nothing stale, makes exactly the stale rows claimable again, and changes no other row |
| JobQueue.RowsKept | app/services/jobs.py:47-250 | in every run start, heartbeat and worker stand together, on running rows and not on waiting ones; finished rows have an end, and an error exactly if they failed |
| JobQueue.ClaimedRow | app/services/jobs.py:191-203 | so the row that a claim takes carries this claim's time and worker alone, also after a sweep |
| JobQueue.SweptRow | app/services/jobs.py:239-248 | and a swept row is as new, but says why unless an earlier error does |
| JobQueue.EarlierStartKept | app/services/jobs.py:191-203 | a row that has a start keeps it when it is claimed |
| JobQueue.OldWithoutHeartbeat | app/services/jobs.py:228-238 | a running row without a heartbeat is as old as its start, and without one as its last change |
| JobWorker.OneExecutor | app/services/job_worker.py:67-146 | under fresh heartbeats, in every run of any number of workers, a job has at most one executor and is not waiting to be claimed again |
| JobWorker.SingleHolderExactly | app/services/jobs.py:219-250 | at every point of a run each held job has one holder and is not waiting, exactly if no sweep finds a held job stale |
| JobWorker.HeldRunningExactly | app/services/subscription/search/tasks.py:85-100 | under fresh heartbeats each held job is running at every point, exactly if no held job is marked as failed from outside |
| JobWorker.SupersededReached | app/services/subscription/search/tasks.py:85-100 | with one job and one worker a job is marked as failed while it executes, 181 seconds after its last heartbeat, and keeps its executor |
| JobWorker.TelegramAlone | app/services/job_worker.py:95-104 | in every run, stale heartbeats or not, no worker holds more than two jobs, and a Telegram job is held alone |
| JobWorker.HoldingsExactly | app/services/job_worker.py:95-141 | what a worker holds changes by its own claims and ends alone: a poll takes the job it claims, a sidecar is added, an end takes away the job that ended |
| JobWorker.PairsFormed | app/services/job_worker.py:95-104 | a job that is not of Telegram is executed beside the next such job |
| JobWorker.StaleJobRunsTwice | app/services/jobs.py:219-250 | a stale job that its worker still executes goes to a second worker |
| JobWorker.StaleJobReached | app/services/jobs.py:219-250 | this happens from an empty table with two idle workers, in two steps, a sweep and a claim |
| JobWorker.Execute | app/services/job_worker.py:106-141 | marks the job done or failed, whichever way its dispatch ends |
| JobWorker.ExecuteWithSidecars | app/services/job_worker.py:95-104 | finishes the claimed job, and with it exactly the next that is not of Telegram, if one waits, and none beside a Telegram job; touches nothing else |
| JobWorker.RunUntilEmpty | app/services/job_worker.py:67-104 | drains the queue: every waiting supported job ends done, or failed with what its execution raised; nothing else is touched, waiting jobs are the measure |
| CssMinifier.MinifyCss | app/tools/build_static.py:43-85 | computes the squeezed token stream of the text, rendered and stripped |
| CssMinifier.StringEnd | app/tools/build_static.py:61-71 | the inner loop ends where the scanner says the string ends |
| CssMinifier.SpaceEnd | app/tools/build_static.py:75-78 | the inner loop takes the maximal whitespace run |
| CssMinifier.TokensOfRender | app/tools/build_static.py:43-85 | scanning undoes rendering on every well-formed stream that does not end in a gap |
| CssMinifier.StreamOfMinified | app/tools/build_static.py:43-85 | the output's token stream is the input's, with a final string trimmed on the right |
| CssMinifier.StreamPreservedExactly | app/tools/build_static.py:43-49 | strings byte for byte, other characters in order, one gap per run: preserved exactly if the text does not end blank inside an unclosed string |
| CssMinifier.OpenBlankTrimmed | app/tools/build_static.py:61-72 | a quote and a blank end blank inside an unclosed string, and only the quote is left |
| CssMinifier.MinifyIdempotent | app/tools/build_static.py:43-85 | minifying again changes nothing |
| CssMinifier.MinifyNeverLonger | app/tools/build_static.py:43-85 | the output is never longer than the input |
| CssScanner.FirstExactly | app/tools/build_static.py:52-83 | the pieces that the loop takes, by characters: a comment to its first close, a string in either quote to the first one behind an even number of backslashes, a whole run of blanks, or one character |
| SchemaMerge.Database.MergeDuplicateSubscriptions | app/db_schema_migrations.py:58-99 | the UPDATE, then the DELETE with its cascade: the subscription index holds and no resource is lost |
| SchemaMerge.Database.DeleteDuplicateResources | app/db_schema_migrations.py:102-112 | keeps the lowest id of each subscription and URL: the link index holds and no link is lost |
| SchemaMerge.Database.Migrate | app/db_schema_migrations.py:58-112 | both in order; afterwards both unique indexes hold |
| SchemaMerge.CascadeTakesNothing | app/db_schema_migrations.py:58-99 | no resource is lost to the delete cascade |
| SchemaMerge.Survivors | app/db_schema_migrations.py:58-112 | a resource survives exactly if it is the oldest of those merged onto its link; only its subscription changes |
| SchemaMerge.KeepersSurvive | app/db_schema_migrations.py:86-99 | the surviving subscriptions are exactly the lowest of their groups and the ones outside the index, unchanged |
| SchemaMerge.IndexesHold | app/db_schema_migrations.py:223-235 | both unique indexes are satisfiable afterwards |
| SchemaMerge.MergedExactly | app/db_schema_migrations.py:58-101 | two subscriptions are merged exactly if both have a TMDB id, ids and media types are equal, and neither is completed |
| SchemaMerge.KeeperLowest | app/db_schema_migrations.py:63-68 | they are merged into the one with the lowest id |
| SchemaMerge.OwnsUnion | app/db_schema_migrations.py:58-112 | each subscription owns exactly the union of the URLs of its merged group |
| SchemaMerge.MigrateIdempotent | app/db_schema_migrations.py:58-112 | a second run changes nothing |
| DuplicateCheck.IndexSees | app/services/subscription/resource/duplicate.py:94-115 | each part of the index sees exactly what some effective row has |
| DuplicateCheck.IndexExact | app/services/subscription/resource/duplicate.py:21-54 | the indexed answer is the strongest reason any row gives one by one: same key, covered episodes, similar title |
| DuplicateCheck.StrongestExactly | app/services/subscription/resource/duplicate.py:118-152 | a candidate is refused exactly for an effective row with its key, else for one with all its episodes, else for a similar title where neither names an episode |
| DuplicateCheck.EpisodesReadExactly | app/services/subscription/resource/duplicate.py:29-36 | an ed2k link with a title is judged by the episodes of the title alone, any other result by its whole text |
| DuplicateCheck.WhatCounts | app/services/subscription/resource/resources.py:36-44 | delivered and new rows count against later candidates; what a failure, a setback or a skip leaves does not |
| DuplicateCheck.Checker.BuildIndex | app/services/subscription/resource/duplicate.py:94-115 | the loop builds the index of the rows |
| DuplicateCheck.Checker.MemoIndex | app/services/subscription/resource/duplicate.py:79-91 | whatever the memo holds, the index returned is that of the list's current rows |
| DuplicateCheck.Checker.ResourceAlreadyExists | app/services/subscription/resource/duplicate.py:21-54 | reports the strongest reason any current row gives, or none if no row gives one |
| DuplicateCheck.Checker.InsertRow | app/services/subscription/resource/ops.py:66-67 | putting a row in front of a list keeps every memo entry right |
| AttachLoop.OrderedIs | app/services/subscription/attach/service.py:49-52 | sorting by (-priority, source, message id) permutes the batch and puts higher priorities first |
| AttachLoop.OrderedStable | app/services/subscription/attach/service.py:49-52 | results that compare equal keep their order |
| AttachLoop.OrderedColumns | app/services/subscription/attach/service.py:49-52 | in a sorted batch priorities fall, equal priorities have rising sources, equal sources rising message ids |
| AttachLoop.StringLessExactly | app/services/subscription/attach/service.py:49-52 | texts are compared where they differ first |
| AttachLoop.FallbackExactly | app/services/subscription/match/source_identity.py:11-13 | fallbacks are told by four beginnings of their source, in any letter case |
| AttachLoop.BlockedExactly | app/services/subscription/resource/fallback.py:31-60 | a fallback's share link is blocked for a film by any usable share row, for a series exactly by one that counts and covers all the episodes it names |
| AttachLoop.UnusableExactly | app/services/subscription/resource/fallback.py:23-28 | a row blocks by the same statuses by which it counts against duplicates |
| AttachLoop.CanonizedIs | app/services/subscription/resource/ops.py:28-68 | a result is saved under its canonical URL and is otherwise unchanged |
| AttachLoop.InsertsExactly | app/services/subscription/resource/ops.py:28-68 | a valid, allowed result is inserted exactly if no row has its URL and no effective row its key, all its episodes, or a similar title where neither names an episode |
| AttachLoop.AttachBatch | app/services/subscription/attach/service.py:47-66 | sorts and attaches, with the saved results and the rows of that rule; a saved fallback has the highest priority of all fallbacks of the unsorted batch that match |
| AttachLoop.AttachResults | app/services/subscription/attach/service.py:75-105 | the loop saves and inserts what folding its rule over the batch gives |
| AttachLoop.InsertResource | app/services/subscription/resource/ops.py:28-68 | inserts exactly valid, allowed results that no row makes a duplicate and whose URL is new, in front |
| AttachLoop.AtMostOneFallback | app/services/subscription/attach/service.py:84-104 | at most one fallback is saved, in whatever order the results come |
| AttachLoop.BestFallback | app/services/subscription/attach/service.py:47-105 | of every batch, sorted by the program, the saved fallback has the highest priority of all that match |
| AttachLoop.FallbackSavedExactly | app/services/subscription/attach/service.py:84-104 | in any order, a fallback is saved exactly if some match of at least the first match's priority is neither blocked nor refused at its turn |
| AttachLoop.FirstChanceSaved | app/services/subscription/attach/service.py:84-104 | and the first such match is the one saved |
| AttachLoop.TopFallbackSavedExactly | app/services/subscription/attach/service.py:47-105 | of every batch, sorted by the program, a fallback is saved exactly if some match of the highest priority is neither blocked nor refused at its turn |
| AttachLoop.FirstFallbackSaved | app/services/subscription/attach/service.py:84-104 | in any order, the first matching fallback is saved unless blocked or not insertable |
| AttachLoop.PrimariesCurrent | app/services/subscription/attach/service.py:81-96 | the list of share resources kept by hand equals a fresh query of the rows |
| AttachLoop.NothingSavedTwice | app/services/subscription/resource/ops.py:28-68 | no saved row shares key or URL with an effective row below it, nor are its episodes covered by one |
| AttachLoop.NoEligibleLost | app/services/subscription/attach/service.py:75-105 | every eligible primary result is in the rows at the end, by URL or by a duplicate |
| AttachLoop.NewEpisodesSaved | app/services/subscription/attach/service.py:75-105 | at its turn, an eligible primary result with a new link is saved if no effective row covers all the episodes it names |
| AttachLoop.SavedApart | app/services/subscription/resource/ops.py:28-68 | of the results saved from one batch no two share a key or URL, and none has its episodes covered by an earlier one |
| AttachLoop.SecondPassSavesNoPrimary | app/services/subscription/attach/service.py:75-105 | the same batch again saves no primary result |
| EpisodeKeys.ExpandRange | app/services/subscription/episode/keys.py:26-32 | a range yields exactly the keys of its season from start to end, an end of 0 standing for the start, if the start is positive and the end at most 120 later |
| EpisodeKeys.AllTmdbEpisodeKeys | app/services/subscription/episode/keys.py:75-95 | the accumulating loop computes the expected keys |
| EpisodeKeys.ExpectedExactly | app/services/subscription/episode/keys.py:75-95 | expected are the first episodes of every positive season entry, or without any those of season 1 by the total |
| EpisodeKeys.MissingExactly | app/services/subscription/episode/keys.py:98-131 | missing are a series' expected keys that Emby did not report; a bare count stands for the first episodes of season 1 only if no other season is expected |
| EpisodeCodec.StoredKeySurvives | app/services/subscription/episode/keys.py:35-49 | a key survives storing and reading exactly if season and episode are positive |
| EpisodeCodec.ReadExactly | app/services/subscription/episode/keys.py:39-49 | read are exactly two numbers around an `x` between blanks, the second positive; season 0 counts as 1 |
| EpisodeCodec.ReadIsStable | app/services/subscription/episode/keys.py:39-49 | whatever was read is stored and read back unchanged |
| EpisodeCodec.StoredSetSurvives | app/services/subscription/episode/keys.py:52-58 | a stored list, in any order and with repeats, reads back as its set exactly if all keys are positive |
| EpisodeRuns.LabelSeason | app/services/subscription/episode/summary.py:13-25 | the first encoder's loop over a season appends the season's runs |
| EpisodeRuns.EpisodeRangeLabels | app/services/subscription/episode/summary.py:8-25 | the first encoder gives the runs of the key set |
| EpisodeRuns.GroupBySeason | app/services/subscription/episode/summary.py:9-11 | grouping the sorted keys gives the sorted episodes of the sorted seasons |
| EpisodeRuns.SummarizeSeason | app/services/subscription/library/health.py:16-24 | the second encoder's loop over a season gives the season's runs |
| EpisodeRuns.EpisodeRangeSummary | app/services/subscription/library/health.py:10-26 | the second encoder gives the same runs of the key set |
| EpisodeRuns.KeyRunsCover | app/services/subscription/episode/summary.py:8-25 | the runs are ascending, disjoint, maximal, and cover exactly the keys |
| EpisodeRuns.RunsUnique | app/services/subscription/episode/summary.py:8-25 | no other list of runs is |
| EpisodeRuns.ExpandExactly | app/services/subscription/episode/keys.py:26-32 | the runs expand back to the set exactly if no season is 0, no episode below 1, and no run longer than 121 |
| EpisodeRuns.MissingExpands | app/services/subscription/episode/keys.py:123-129 | the runs of what a series misses expand back to it exactly if none is longer than 121 |
| EpisodePacks.KeysBySeason | app/services/subscription/episode/packs.py:8-12 | groups a set by season, in whatever order it is visited |
| EpisodePacks.Totals | app/services/subscription/episode/packs.py:21-22 | the seasons' sizes add up to the size of the set, their union is the set |
| EpisodePacks.SeasonKeysForCounts | app/services/subscription/episode/packs.py:15-31 | the loop from the largest count down gives the count inference |
| EpisodePacks.CountInference | app/services/subscription/episode/packs.py:15-45 | a count infers nothing, everything, or one whole season of a mentioned size that alone has that size or alone of that size misses episodes |
| EpisodePacks.LargestCountDecides | app/services/subscription/episode/packs.py:15-45 | unless all episodes are mentioned, the largest count decides that settles on a season: the only one of its size that misses episodes, or the only one of its size |
| EpisodePacks.UnsettledCounts | app/services/subscription/episode/packs.py:15-31 | where none settles, counts stand for everything if all episodes are mentioned or there is one season, otherwise for nothing |
| EpisodePacks.SeasonRangeKeys | app/services/subscription/episode/packs.py:85-91 | the loop collects the keys of all ranges |
| EpisodePacks.PackWordSeasons | app/services/subscription/episode/packs.py:75-77 | the loop over the named seasons, in any order, collects their expected keys if there is a pack word and no explicit episode |
| EpisodePacks.PackKeysWithSeasonContext | app/services/subscription/episode/packs.py:65-82 | gives the inference from named seasons: pack words, and for one season its ranges and counts |
| EpisodePacks.PackEpisodeKeysFromText | app/services/subscription/episode/packs.py:48-62 | takes the branches of the pack inference |
| EpisodePacks.PackWithinExpected | app/services/subscription/episode/packs.py:48-62 | pack inference yields expected keys only, and so does count inference before the cut |
| EpisodePacks.OneSeasonPack | app/services/subscription/episode/packs.py:65-82 | from one named season only keys of that season are inferred |
| EpisodePacks.OtherSeasonOnly | app/services/subscription/episode/packs.py:104-113 | a text naming exactly one season other than 1 yields no season 1 key |
| EpisodePacks.WholeSeasons | app/services/subscription/episode/packs.py:65-82 | named seasons with a pack word and no explicit episode stand for exactly their expected keys |
| EpisodePacks.SeasonSizeMentioned | app/services/subscription/episode/packs.py:94-101 | a text that names one season and mentions its size, or any count beside a pack word, stands for the whole season |
| EpisodePacks.FullSeriesIsAll | app/services/subscription/episode/packs.py:48-62 | a text that says so, without seasons or episodes of its own, stands for the whole series |
| EpisodePacks.TextKeysExactly | app/services/subscription/episode/packs.py:104-120 | explicit episodes stand beside what is inferred; those of season 1 move to the one season that the text names |
| EpisodePacks.LongCountLost | app/services/subscription/episode/packs.py:94-101 | a count that fits no season gives its first episodes, or nothing above 121 |
| Completion.CompleteExactly | app/services/subscription/library/match.py:81-98 | complete exactly if nothing is missing, or the count argument covers a season 1 expectation without owned keys |
| Completion.CompleteIffNothingMissing | app/services/subscription/library/match.py:81-98 | with the row's own count, complete exactly if nothing is missing |
| Completion.CountArgumentOverrules | app/services/subscription/library/match.py:84-95 | an argument that disagrees completes a series with missing episodes |
| Completion.FilmComplete | app/services/subscription/library/match.py:81-86 | a film is complete exactly if the library has it |
| Completion.NothingExpectedIncomplete | app/services/subscription/library/match.py:97-98 | a series that expects nothing is not complete by any count, unless its total is negative |
| Completion.HiddenExactly | app/services/subscription/library/match.py:81-102 | hidden are what is marked as completed, films in the library, and series that miss nothing |
| Completion.CompleteAcceptsNothing | app/services/subscription/library/match.py:130-164 | a series hidden because it is complete, with known library state, accepts nothing |
| Completion.AcceptedCovers | app/services/subscription/library/match.py:130-164 | a matching candidate with parsed episodes is accepted exactly if it covers a missing one |
| Completion.FilmAcceptedExactly | app/services/subscription/library/match.py:130-136 | for a film every valid match is accepted until it is hidden as complete, and none after |
| Completion.UnreadLibraryAcceptsAll | app/services/subscription/library/match.py:130-138 | while the library cannot be read every valid match is accepted |
| Completion.UnknownSeriesAccepts | app/services/subscription/library/match.py:147-151 | a series without expected episodes accepts every valid match unless it owns episodes and the match names some |
| Completion.UnnamedAcceptedExactly | app/services/subscription/library/match.py:152-164 | a match that names no episode passes for an incomplete series only from a primary share or a plugin with its TMDB id |
| Completion.ReasonsExactly | app/services/subscription/match/candidate_decision.py:63-81 | each reason is given exactly when; a match with episodes is refused with one reason alone, that they are in the library |
| Completion.NotNeededNeverGiven | app/services/subscription/match/candidate_decision.py:75-77 | the `episodes_not_needed` branch is unreachable |
| Completion.CoverageCompletes | app/services/subscription/library/match.py:81-98 | owning a candidate's episodes completes the series exactly if its coverage is all that was missing |
| Completion.CoverageRulesOrder | app/services/subscription/match/candidate_decision.py:110-132 | a fallback that covers more missing episodes always sorts first, despite the leading full-pack flag |
| Completion.ExactBeatsLoose | app/services/subscription/match/candidate_decision.py:110-132 | at equal coverage a candidate with only missing episodes sorts before one that carries others |
| Completion.FullFlagRedundant | app/services/subscription/match/candidate_decision.py:110-132 | the leading full-pack flag never decides: the order is that of the keys without it |
| Completion.NoCoverageTies | app/services/subscription/match/candidate_decision.py:110-132 | candidates that cover nothing missing are ordered by their text preferences alone |
| HaisouBudget.Budget.constructor | app/services/sources/haisou/budget.py:7-10 | the counters start at zero with no window |
| HaisouBudget.Budget.RollWindow | app/services/sources/haisou/budget.py:124-131 | restarts the window exactly if there is none or it has run out |
| HaisouBudget.Budget.AcquireSearchSlot | app/services/sources/haisou/budget.py:59-71 | grants and counts exactly if the rolled window has room |
| HaisouBudget.Budget.AcquireValidateSlot | app/services/sources/haisou/budget.py:74-82 | the same for validate calls |
| HaisouBudget.Budget.AllowSearch | app/services/sources/haisou/budget.py:47-50 | reports room without taking it |
| HaisouBudget.AcquireIsRollAndTake | app/services/sources/haisou/budget.py:59-82 | a call that is not interrupted is a roll and a take of a run, and is recorded as granted exactly if the method grants it |
| HaisouBudget.TwiceTheBudget | app/services/sources/haisou/budget.py:59-82 | over any interleaving of threads, any half-open interval shorter than the window by the worst reading-to-roll delay has at most twice the maximum of grants |
| HaisouBudget.TwiceTheBudgetAtomic | app/services/sources/haisou/budget.py:59-82 | with no delay, the interval is the whole window |
| HaisouBudget.ShippedBudget | app/services/sources/haisou/budget.py:12-15 | with the shipped limits an hour has at most 80 searches and 120 validations |
| HaisouBudget.ShippedBudgetReached | app/services/sources/haisou/budget.py:12-15 | and can have as many |
| HaisouBudget.BoundedExactly | app/services/sources/haisou/budget.py:124-131 | twice the maximum bounds every interval of a length, in all runs with a given delay, exactly if the length is at most the window less the delay |
| HaisouBudget.FullWindowExactly | app/services/sources/haisou/budget.py:124-131 | the whole window is such a length exactly if every reading is acted on at once |
| HaisouBudget.ThriceIsReached | app/services/sources/haisou/budget.py:124-131 | in any longer interval three times the maximum is granted, by calls that are not interrupted but read the clock early |
| HaisouBudget.TwiceIsReached | app/services/sources/haisou/budget.py:124-131 | twice the maximum is attained within any time, even without delay |
| HaisouBudget.ZeroClockUnbounded | app/services/sources/haisou/budget.py:128-128 | with a clock at 0 any number of calls is granted |
| HaisouCache.ResultCache.constructor | app/services/sources/haisou/budget.py:17-20 | a new cache is empty |
| HaisouCache.ResultCache.CacheGet | app/services/sources/haisou/budget.py:134-144 | returns the entry if it has not expired, and drops it if it has |
| HaisouCache.ResultCache.CacheSet | app/services/sources/haisou/budget.py:147-159 | makes room in a full store, then sets the key; the store keeps its bound and its keys stay distinct |
| HaisouCache.ResultCache.DropExpired | app/services/sources/haisou/budget.py:153-155 | the first loop removes exactly the expired ones of the first batch |
| HaisouCache.ResultCache.DropFirst | app/services/sources/haisou/budget.py:156-158 | the second loop removes the first batch |
| HaisouCache.BoundedAndHonest | app/services/sources/haisou/budget.py:134-159 | after any run the store has at most 256 entries, each the last one set for its key |
| HaisouCache.SetMakesRoom | app/services/sources/haisou/budget.py:147-159 | in a full store of 256 a set drops the 32 oldest, if none of them has expired or all have; below the bound it drops nothing |
| HaisouCache.HitsAreFresh | app/services/sources/haisou/budget.py:134-144 | a hit is the last value set for the key, within its time to live |
| HaisouCache.ExactBelowTheBound | app/services/sources/haisou/budget.py:134-159 | with fewer distinct keys than the bound, the answers are those of an unbounded cache |
| RequestGate.TelegramRequestGate.constructor | app/services/adapters/telegram/rate_limit.py:11-26 | a new gate has its clamped intervals, no lock and no schedule |
| RequestGate.TelegramRequestGate.EnsureLock | app/services/adapters/telegram/rate_limit.py:28-35 | a change of loop forgets the schedule, the same loop keeps it |
| RequestGate.TelegramRequestGate.SleepFor | app/services/adapters/telegram/rate_limit.py:41-50 | the delay ends at the later of next slot and cooldown, or at once |
| RequestGate.TelegramRequestGate.Proceed | app/services/adapters/telegram/rate_limit.py:52-59 | reserves the current interval, then recovers outside a cooldown |
| RequestGate.TelegramRequestGate.NoteSuccess | app/services/adapters/telegram/rate_limit.py:61-64 | one success step |
| RequestGate.TelegramRequestGate.NoteFloodWait | app/services/adapters/telegram/rate_limit.py:66-72 | one flood step |
| RequestGate.IntervalBounded | app/services/adapters/telegram/rate_limit.py:11-72 | on every run the interval stays in [default, max], exactly if default is at most max |
| RequestGate.SuccessesDecay | app/services/adapters/telegram/rate_limit.py:61-64 | k successes from x give max(default, x times 0.9^k) |
| RequestGate.ShippedRecovery | app/services/adapters/telegram/rate_limit.py:103-103 | with the shipped constants 36 successes restore the default from any interval; 35 do not from the maximum |
| RequestGate.RecoveryInAnyRun | app/services/adapters/telegram/rate_limit.py:41-64 | in any run without floods the interval is at most that of its successes alone |
| RequestGate.ShippedRecoveryInAnyRun | app/services/adapters/telegram/rate_limit.py:41-64 | any flood-free run with at least 36 successes restores the shipped default |
| RequestGate.FloodsBackOff | app/services/adapters/telegram/rate_limit.py:66-72 | k floods in a row, of any lengths, leave an interval of at least min(max, 0.2 times 2^(k-1)) and at most max, and are counted |
| RequestGate.FloodPausesExactly | app/services/adapters/telegram/rate_limit.py:66-72 | after a flood the next wait passes when the pause it asks for is over (at least a second, five if it does not say) or later if the gate said so before; the interval becomes the largest of twice the former, a tenth of the pause and a fifth of a second, as far as the maximum allows |
| RequestGate.ShippedBackOff | app/services/adapters/telegram/rate_limit.py:66-72 | five floods bring the shipped gate to its maximum from any interval |
| RequestGate.SpacedPasses | app/services/adapters/telegram/rate_limit.py:41-59 | successive passes of one caller are at least the earlier interval apart, whatever is noted in between |
| RequestGate.PassNotBefore | app/services/adapters/telegram/rate_limit.py:41-50 | a pass comes no earlier than its wait began and no earlier than the gate said then |
| RequestGate.CooldownRespected | app/services/adapters/telegram/rate_limit.py:41-72 | a wait passes no earlier than the end of a cooldown noted before it began, if the gate belonged to the loop then or no pass came in between |
| RequestGate.CooldownKeptExactly | app/services/adapters/telegram/rate_limit.py:41-72 | for every gate and run, all possible passes of a wait obey an earlier cooldown exactly if the time the gate gives when it begins does |
| RequestGate.ForgottenCooldownExactly | app/services/adapters/telegram/rate_limit.py:28-59 | a cooldown forgotten by an adopting pass, with no flood since, is obeyed exactly if the beginning of the wait or the slot of the last pass comes late enough |
| RequestGate.FirstPassForgets | app/services/adapters/telegram/rate_limit.py:28-35 | without that condition a cooldown is ignored |
| ResourceGroups.MergedIds | app/services/resource_queries.py:174-178 | keeps first occurrences in order |
| ResourceGroups.MergeGroups | app/services/resource_queries.py:163-209 | regroups the newcomer, swaps by (status rank, id), joins ids, episodes and error |
| ResourceGroups.MergeResourceRows | app/services/resource_queries.py:64-84 | the two grouping loops over ordered dictionaries |
| ResourceGroups.MergeShows | app/services/resource_queries.py:163-209 | merging keeps the maximum, and ids, episodes and error stay those of members |
| ResourceGroups.MergedShows | app/services/resource_queries.py:64-84 | every class shows its maximum by (status rank, id), with duplicate-free ids and episodes of its own rows only |
| ResourceGroups.MergedOrder | app/services/resource_queries.py:64-84 | classes are listed in the order of their first rows, each once |
| ResourceGroups.OneSubscription | app/services/resource_queries.py:87-105 | no class mixes subscriptions |
| ResourceLines.RankOrder | app/services/resource_queries.py:212-225 | the order of the statuses, any other last |
| ResourceLines.SharesLineExactly | app/services/resource_queries.py:87-105 | two rows share a line exactly if they have one subscription and link, or the best rows of their links have one subscription, are both delivered or both pending, and have the same episodes, of which there are some |
| ResourceLines.LinesShowPartners | app/services/resource_queries.py:64-84 | every line shows the best of such rows, with ids and episodes of theirs only |
| ResourceLines.RowsHaveLines | app/services/resource_queries.py:64-84 | every row has its line, and is listed on no other |
| ResourceGroups.GroupIdsDisjoint | app/services/resource_queries.py:64-84 | no id is listed in two groups |
| ResourceGroups.HashGroupIdsCompleteExactly | app/services/resource_queries.py:163-192 | a group of one link lists the ids of all its rows exactly if no row after its second outranks the best before it |
| ResourceGroups.GroupIdsCompleteExactly | app/services/resource_queries.py:64-84 | a line of the listing lists the ids of all rows of its class exactly if every link group after the first is a single row and no row from the third on outranks the best before it |
| ResourceGroups.GroupIdsIncomplete | app/services/resource_queries.py:64-84 | three rows of one link, the last delivered: one line without the second id |
| ResourceGroups.EpisodesFollowIds | app/services/resource_queries.py:163-193 | a line lists exactly the episodes of the rows whose ids it lists |
| ResourceListing.IdsListedExactly | app/services/resource_queries.py:64-84 | a line lists the best rows of its links, and the rows of its first link while that keeps the lead; of either list a row stays exactly if no later one takes the lead, or one only, and from this row |
| ResourceListing.EpisodesListedExactly | app/services/resource_queries.py:163-193 | and exactly the episodes of these rows |
| ResourceListing.EpisodesCompleteExactly | app/services/resource_queries.py:163-193 | it lists all episodes of its class exactly if these rows have those of the others |

## Left out

- Letter case: `casefold` and `lower` are modelled on ASCII letters. The link patterns also fold the non-ASCII letters that `re.I` identifies with ASCII ones.
- Link parsing: `urlparse` is modelled as the split at the first `?` and the last path segment, which is what it does on the links the pattern yields.
- Text patterns: episodes, seasons, counts, quality, titles and `SequenceMatcher` are parameters, with the bounds that the patterns guarantee where a law needs them.
- DeliverySafety.SettlesRunExactly: rows are not deleted, and a call stays on its event loop. A push is a reported success or failure; a timed-out push that did succeed outside counts as failed. A second process shares the table but not the locks, which is as another loop.
- Delivery.Service.FinishPush: log entries and the exceptions of the database are not modelled.
- DeliveryRetry.Select: which rows the listing query returns, its order and its own limit are an input; rows whose time stamp is absent or unreadable, which the code treats as due, are not modelled, nor are the counters of `retry_failed_resources`.
- DeliveryRetry.FailuresTakeTheirTime: a retry is decided on the row as it is when the attempt reports. Two retry runs that overlap and select the same row before either reports (the scheduled job, the bot command and the web route can each start one) are not runs of this model, nor is manual delivery.
- JobQueue.JobTable.RequeueStale: a sweep is one step, which the database transaction provides; rows with an unreadable time stamp, which the code passes over, are not modelled.
- JobQueue.JobTable.ClaimNextJob: a claim is one step; the truncation of worker names to 120 and of errors to 1000 characters is not modelled, nor are payload and result columns.
- JobWorker.OneExecutor: `mark_job_running`, cancellation in `stop()`, and a worker that loses its claimed job in an exception before executing it are not steps.
- JobWorker.RunUntilEmpty: the polling sleep and the sixty-second sweep are outside the loop; the two executions of a pair are ordered one after the other, their overlap is a matter of the transition system.
- `_minify_js`: it drops the blank after identifiers with an underscore, so token preservation is not true of it.
- CssMinifier.MinifyCss: stated against the minifier's own scanner, not against the grammar of CSS.
- SchemaMerge.Database.Migrate: a NULL status or media type is not modelled; the other migrations only add columns and tables.
- DuplicateCheck.Checker.MemoIndex: row and subscription identities in the memo token are modelled by their values; a list identity reused after garbage collection is not modelled. Rows are only ever put in front.
- AttachLoop.AttachBatch: `results_may_match_subscription`, the library check of a subscription, the loop over several subscriptions and the deliveries after it are left out; the rewriting of a result's URL is seen within one subscription, not by the next one. Statistics of sources and exceptions of the database are not modelled.
- EpisodeRuns.EpisodeRangeLabels: runs are pairs of numbers; formatting, the display limit and the tail of a truncated list are not modelled.
- EpisodeCodec.StoredKeySurvives: digits are ASCII; pairs stored as JSON arrays are not modelled.
- EpisodeKeys.AllTmdbEpisodeKeys: season entries that are not numbers, which the code skips, are not modelled.
- Completion.AcceptedCovers: the score is not modelled; candidate facts such as link validity are inputs.
- Completion.CoverageRulesOrder: the entries of the sort key after the first three are arbitrary integers.
- HaisouBudget.TwiceTheBudget: `note_haisou_search`, `note_haisou_validate`, which count without checking, and the reset are not steps.
- HaisouCache.ResultCache.CacheSet: one call is one step; a cached value of None is told apart from a miss.
- RequestGate.SpacedPasses: one sequential caller on one loop; several callers may pass together by design. The recognition of flood errors by their text is not modelled. Real numbers stand for floats.
- ResourceGroups.MergeGroups: display titles, labels and the episode cache are not modelled; status is taken as already case-folded.
- The adaptive semaphores in `app/services/concurrency.py`: after a shrink, releases lift the value above the new limit, so the ceiling is not an invariant.
- HTTP, Telegram, Emby and TMDB adapters, routers, the web front end, authentication, metrics: I/O or display.
