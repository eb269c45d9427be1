# WikiPeople, verified

WikiPeople shows, under the title of a Wikipedia article, the accounts that wrote most of it. A
queue of articles is fed by readers and by a backfill; workers lease a row, ask the upstream
services who wrote the article, store an answer and drop the row; jobs keep two lists current that
decide at serving time which names are withheld. This project models those parts in Dafny and
proves what they promise.

Methods of a class change the same fields as the program does and are proved against functions
from one state to the next; the main results are lemmas about those functions: over every run of
the queue with readers, workers, crashes and cleanups interleaved transaction by transaction, every
history of the backfill, every sequence of standing runs, every page text.

| Files | What they hold |
|---|---|
| `Options.dfy`, `Arithmetic.dfy`, `Decimal.dfy` | optional values; sums and sizes; numbers as text |
| `WorkQueue.dfy`, `Repository.dfy` | the tables, every transaction as a function, and the class that runs them on fields |
| `Transactions.dfy` | what every transaction leaves, row by row and field by field, said without the functions that define it |
| `QueueRuns.dfy`, `QueueSafety.dfy` | readers, workers, crashes, revivals, cleanups and the clock interleaved; what every run keeps |
| `Revival.dfy`, `Backoff.dfy`, `Lives.dfy` | what brings dead rows back; retry delays; the life of a row over whole runs |
| `Draining.dfy`, `Overlap.dfy` | one worker pass, and why an unfed queue drains; the same with any number of workers at once |
| `Attribution.dfy`, `Selection.dfy`, `Ladder.dfy`, `Worker.dfy` | counting, the stable ranking, top-k selection, the candidate pool, the two rungs, one job, the worker's loop |
| `Replica.dfy`, `Walk.dfy` | the cursor as text, one batch, whole walks over a changing table |
| `Offering.dfy`, `Backfill.dfy`, `Resumption.dfy`, `Feeding.dfy` | batches handed to the queue, once and again; one run; runs with crashes and restarts; the same beside everybody else at the queue |
| `Policy.dfy`, `Standing.dfy` | who may be named; the standing job |
| `Rotation.dfy`, `Starvation.dfy`, `Withholding.dfy` | fairness of the rationed lock checks, exactly when it holds, and what it means for the names shown |
| `Presentation.dfy`, `Endpoints.dfy` | what a ready answer shows; the two page endpoints |
| `Requests.dfy`, `ReaderRuns.dfy` | requests as series of transactions beside workers; what a 202 and a served answer are worth |
| `Correspondence.dfy` | the interleaved models do what the calls do; who is claimed first |
| `Pagination.dfy`, `OptOutPage.dfy`, `OptOut.dfy` | the two paginated walks; reading the opt-out page; materialising it |
| `Witnesses.dfy` | concrete runs and inputs for what is not promised |

## What the proofs found

Each of these is a property one would expect of the code, with the exact condition under which the
code has it and a run or an input on which it does not.

- A reader can be told 202 with nothing behind it: a worker fails the row for good between the
  request's look at it and its enqueue (`ReaderRuns.PromiseNobodyKeeps`; exactly when:
  `Requests.UnbackedPromiseIff`).
- The guard against reviving a permanent failure is read in one transaction and acted on in another
  (`ReaderRuns.TwoReadersReviveAPermanentFailure`; exactly when: `Revival.LateRevivalUndoesIff`).
- Leases that run out raise a row's attempts without bound (`Lives.CrashesRaiseAttemptsForever`);
  the bound holds exactly while no claim takes over a lease that ran out on the last attempt
  (`Lives.AttemptsBoundedIff`).
- Asking for a revision whose row is dead or superseded supersedes older pending rows without
  queueing anything, so a page can be left with no work (`Witnesses.AskingStrandsAPage`; exactly
  when: `WorkQueue.EnqueueStrandsPageIff`).
- The fallback after an insert race overwrites the priority where the normal path takes the larger
  one (`Witnesses.LosingAnInsertLowersAPriority`; exactly when: `WorkQueue.PriorityAfterAskingAgain`).
- A worker that finds the page has moved on requeues without asking for a refresh: a current
  revision that has an answer, however old, gets no job (`Witnesses.RequeueQueuesNothing`; exactly
  when: `Draining.RequeueBacks`).
- An answer exactly at the end of the freshness window is served as stale but not queued
  (`Witnesses.StaleAnswerIsNotQueued`; exactly when: `Endpoints.StaleIsQueuedStrictlyLater`), and a batch offered again a second later can queue it
  (`Offering.ReplayASecondLaterCanAddARow`; exactly which pages a replay queues:
  `Offering.OffersAddExactlyTheUnhandled`).
- The rotation of lock checks is fair to everybody else exactly when fewer accounts are in trouble
  than the budget (`Starvation.FairIff`). With as many, and for any number of runs, there is an
  account that is due and never checked (`Starvation.StarvingRotation`); accounts that were checked
  once and fail from then on get in the way like those that never were
  (`Starvation.StuckAccountsStarveTheRest`).
- A lock check that finds the lock but not its reason stores the flag and not the time; it changes
  no verdict (`Witnesses.HalfReadLockStoresTheFlag`, `Rotation.HalfReadLockChangesNoVerdict`).
- A pool smaller than floor(1 / minimum share) can lose the only name of a page, and no larger one
  can (`Ladder.SmallerPoolCanLoseTheOnlyName`, `Ladder.PoolOfShareBoundSuffices`); the defaults, 50
  and 1 %, are below that bound of 100 (`src/wikipeople/config.py:143-145`).
- A category that fits the cap exactly and ends in an empty batch is reported as cut short
  (`Witnesses.WholeListReportedAsCut`; exactly when: `Pagination.FlagIsRightIff`).
- A listed title keeps a leading or trailing blank spelled as an underscore, or a colon behind a
  blank, since blanks and colons are trimmed before underscores are replaced
  (`Witnesses.UnderscoreBecomesALeadingBlank`; exactly the clean titles survive:
  `OptOutPage.PlainBulletReadsBackIff`).

Where the documentation and the code disagree, the code is followed: `docs/architecture.md` calls
the backfill alphabetical, while wikis with a replica are walked by length
(`src/wikipeople/backfill.py:113-123`); the comment in `src/wikipeople/worker.py:188-191` says only WikiWho's refusal
leads to edit counts, while the block also covers the account lookups, so a permanent error there
would as well; `docs/architecture.md:73-76` promises exactly one job for the current revision once a
page is stale, which `Endpoints.StaleIsQueuedStrictlyLater`, `Draining.RequeueBacks` and
`WorkQueue.EnqueueStrandsPageIff` qualify.

## Model

| member | source | states |
|---|---|---|
| WorkQueue.EnqueueKeepsTables | src/wikipeople/repository.py:119-166 | an enqueue keeps ids below the counter, keys unique, leases only on leased rows, and every row under its id and key |
| WorkQueue.EnqueueSupersedesExactlyOlderPending | src/wikipeople/repository.py:127-166 | an enqueue that is not declined leaves the asked-for row, no older pending row of the page, and every other page, newer revision, leased or dead row unchanged in every field |
| WorkQueue.EnqueueStrandsPageIff | src/wikipeople/repository.py:127-166 | an enqueue takes a page's last active row away exactly when the asked-for row exists and every active row is pending at an older revision |
| Witnesses.AskingStrandsAPage | src/wikipeople/repository.py:127-166 | a run from empty tables on which it does |
| Witnesses.LosingAnInsertLowersAPriority | src/wikipeople/repository.py:167-179 | a run from empty tables on which the fallback after an insert race lowers a priority from 100 to 10 |
| Transactions.EnqueueTreatsOthers | src/wikipeople/repository.py:127-166 | what an enqueue leaves of any row but its own: superseded if pending, of the same page and older and the key is there or nothing newer is at work; else unchanged in every field |
| Transactions.EnqueueTreatsItsRow | src/wikipeople/repository.py:127-166 | an active row of the key gets the larger priority and the time, an ended one nothing, and no row is added |
| Transactions.EnqueueAddsAReadyRow | src/wikipeople/repository.py:127-166 | without a row of the key and newer work exactly one row is added, which anyone may claim from now on |
| Transactions.EnqueueDeclinesBehindNewerWork | src/wikipeople/repository.py:127-136 | behind newer work nothing changes |
| Transactions.RaceTouchesPriorityOnly | src/wikipeople/repository.py:167-179 | the fallback changes priority and time of that key's row and nothing else |
| Transactions.FreshPagesAreNotQueued | src/wikipeople/repository.py:181-204 | nothing happens while some answer of the page is no older than the window; else the queue is asked |
| WorkQueue.LatestExists | src/wikipeople/repository.py:75-88 | a page with results has a newest one |
| WorkQueue.CleanupKeepsLatest | src/wikipeople/repository.py:597-632 | whatever the cutoffs and whichever up to 10,000 obsolete rows are picked, the row served for any page is the same row before and after |
| Transactions.CleanupRemovesExactlyOldEndedRows | src/wikipeople/repository.py:601-606 | a queue row is removed exactly when dead or superseded and last touched before the cutoff; pending and leased rows, and rows touched since, keep every field |
| Transactions.CleanupRemovesOnlyOldReplacedResults | src/wikipeople/repository.py:607-632 | a result is removed only when computed before the cutoff with a later one of its page, and exactly then if no more than 10,000 are; others keep every field |
| WorkQueue.SaveKeepsTables | src/wikipeople/repository.py:240-254 | storing an answer keeps ids and the unique key; that exactly the saved row is then there is `Transactions.SaveStoresExactlyTheRow` |
| Transactions.SaveStoresExactlyTheRow | src/wikipeople/repository.py:240-254 | after a save exactly one row has the key and it equals the saved row in every field; every other row is as it was |
| Transactions.SaveMakesThePageFresh | src/wikipeople/repository.py:190-193 | a save no older than what its page had makes the page as fresh as the saved row, for every cutoff |
| Transactions.NewestSaveIsServed | src/wikipeople/repository.py:75-88 | a save newer than the other answers of its page is the row the page is served |
| WorkQueue.SaveKeepsAnswers | src/wikipeople/repository.py:240-254 | storing an answer takes no page's answer away and changes what no other page is served |
| WorkQueue.ClaimChoiceExists | src/wikipeople/repository.py:208-224 | if any claimable row is not locked by another session, one is first by priority and age |
| Correspondence.ReadersGoBeforeTheBackfill | src/wikipeople/repository.py:208-224 | while a job at a reader's priority, 100, is ready, no job at the backfill's, 10, is claimed |
| Correspondence.OlderJobsGoFirst | src/wikipeople/repository.py:208-224 | of jobs of one priority the older is claimed first |
| Transactions.WhenRowsAreClaimable | src/wikipeople/repository.py:208-218 | pending rows from their time on, leased ones once the lease is past, others never |
| Transactions.ClaimedRowIsHeld | src/wikipeople/repository.py:225-238 | a claimed row is the worker's for the length of the lease, with one attempt more and everything else as it was |
| Transactions.CompleteRemovesOneRow | src/wikipeople/repository.py:256-258 | completing takes exactly that row away |
| Transactions.SupersededRowIsOut | src/wikipeople/repository.py:260-273 | a superseded row keeps key, attempts and priority, carries its reason up to 2000 characters, and is never claimed again |
| Transactions.FailedRowDiesOrWaits | src/wikipeople/repository.py:275-299 | a failed row is dead for good if the failure is permanent or attempts are used up, and otherwise claimable exactly from its delay on |
| Transactions.DelayDoublesUpToTheCap | src/wikipeople/repository.py:283-285 | 30 s after the first attempt, doubled each time until six hours |
| Transactions.RevivedRowStartsOver | src/wikipeople/repository.py:301-315 | a dead row, and only a dead row, starts over with no attempts, ready at once |
| QueueRuns.StepKeepsInv | src/wikipeople/models.py:59-90 | every step of readers, workers, cleanup, crash and clock keeps unique keys, leases naming their rows, and one untouched pending row per page |
| QueueRuns.RunsKeepInv | src/wikipeople/repository.py:119-166 | in every reachable state keys are unique and each page and algorithm has at most one pending row never claimed nor revived |
| QueueSafety.EndingIsSafeIffNobodyElseHolds | src/wikipeople/repository.py:256-299 | since complete, supersede and fail match on the id only, ending a job keeps leases exclusive exactly when no other live worker holds the row |
| QueueSafety.LiveHoldersAreAlone | src/wikipeople/repository.py:206-238 | two live holders never hold one row |
| QueueSafety.StepKeepsLeases | src/wikipeople/repository.py:206-315 | every step of workers that act within their lease keeps each live holder's row leased to exactly that holder |
| QueueSafety.DisciplinedRunsExclude | src/wikipeople/worker.py:50-83 | so in every state of every such run, whatever else interleaves |
| Revival.StepRevivesIff | src/wikipeople/repository.py:275-315 | while workers act within their leases, a dead row stays dead, in the same way, through every step but its own revival |
| Revival.PermanentUntilRevivedIff | src/wikipeople/repository.py:301-315 | over every such run a permanent failure stays one in every state exactly while no revival of its row commits |
| Revival.LateRevivalUndoesIff | src/wikipeople/app.py:219-233 | a revival whose request saw the row dead but not for good undoes a permanent failure exactly when the row was revived and then failed for good in between |
| Revival.LateRevivalRun | src/wikipeople/app.py:219-233 | a run from empty tables, every worker within its lease, on which it does |
| ReaderRuns.TwoReadersReviveAPermanentFailure | src/wikipeople/app.py:219-233 | a run of two readers, both past the endpoint's own guard, in which the second queues a permanent failure again |
| QueueSafety.SavedMeansAnswered | src/wikipeople/worker.py:117-136 | a worker about to complete has stored the answer for exactly its key earlier in the run |
| QueueSafety.AnswersAreNeverLost | src/wikipeople/repository.py:597-632 | once a page has an answer, every later state of the run has one |
| QueueSafety.ServedRowChangesOnlyBySave | src/wikipeople/repository.py:75-88 | only storing an answer for the page itself changes the row it is served |
| QueueSafety.RowsLeaveAnsweredOrExpired | src/wikipeople/repository.py:601-606 | a queue row disappears only after its exact key was answered, or in a cleanup when it is dead or superseded and was last touched before the cutoff |
| Backoff.DelayIsBoundedAndGrows | src/wikipeople/repository.py:283-298 | delays lie between 30 s and 6 h and never shrink with attempts |
| Backoff.CapBitesFromEleven | src/wikipeople/repository.py:284-285 | the delay is 30 * 2^(a-1) exactly up to the tenth attempt |
| Backoff.WaitOfOneLife | src/wikipeople/repository.py:283-298 | the delays of M - 1 failures add up to at most min(30(2^(M-1)-1), 21600(M-1)), and to the first for M up to 11 |
| Lives.StepKeepsHolders | src/wikipeople/repository.py:206-299 | while no claim takes over a lease, every holder's row is its own, in time or not |
| Lives.LivesFollowTheTable | src/wikipeople/repository.py:206-315 | in every run in which no lease runs out, attempts and imposed waits of every row agree with the table of delays, and a row is dead for want of attempts exactly on its last one |
| Lives.WaitsOfOneLife | src/wikipeople/repository.py:283-298 | in every such run the waits imposed on a row in one life are at most min(30(2^(M-1)-1), 21600(M-1)), and exactly the first for a row that ran out of attempts, M up to 11 |
| Lives.AttemptsBoundedIff | src/wikipeople/repository.py:208-228 | with crashes and expiries, rows get at most max(1, M) attempts exactly while no claim takes over a lease that ran out on the last attempt |
| Lives.CrashesRaiseAttemptsForever | src/wikipeople/repository.py:214-228 | for every number there is a run of crashing workers that brings a row to that many attempts without a failure recorded |
| Draining.PassSettlesItsRow | src/wikipeople/worker.py:64-136 | after an uncrashed pass the claimed row is answered and gone, superseded, dead, or pending with a future time |
| Draining.PassKeepsTables | src/wikipeople/worker.py:50-83 | a pass keeps the tables well formed |
| Draining.PassLowersMeasure | src/wikipeople/worker.py:50-109 | with revisions frozen every pass lowers (active rows not at the current revision, tries left) lexicographically, requeueing included |
| Draining.DrainingIsBounded | src/wikipeople/worker.py:50-109 | so the number of uninterrupted passes that find work is bounded by a figure computed from the first queue |
| Overlap.ActMovesPotential | src/wikipeople/worker.py:50-136 | with any number of workers at once, acting within their leases, every transaction lowers one potential, requeues included; taking over a lease raises it by one at most |
| Overlap.OverlappingWorkIsBounded | src/wikipeople/worker.py:50-136 | so, with revisions frozen and no reader, at most the first potential and two for each lease taken over happen, however workers interleave, crash or hang |
| Worker.PassIsPossible | src/wikipeople/worker.py:50-109 | every pass over upstreams that report the current revisions is one the draining argument covers |
| Worker.LoopDrains | src/wikipeople/worker.py:227-232 | so the worker's loop, alone with a queue while revisions stand still, finds work in no more turns than the first queue costs |
| Draining.EnqueueBacks | src/wikipeople/repository.py:103-166 | when an enqueue leaves an active row at the revision or later, as an if and only if |
| Draining.RequeueBacks | src/wikipeople/worker.py:95-109 | a pass that finds the page moved on leaves work for the current revision exactly when other work was there, or neither a row nor an answer is stored for it |
| Witnesses.RequeueQueuesNothing | src/wikipeople/worker.py:95-109 | a run from empty tables after which such a pass leaves the current revision without work, its answer as old as one likes |
| Repository.Repository.constructor | src/wikipeople/repository.py:58-60 | the tables start empty and well formed |
| Repository.Repository.GetResult | src/wikipeople/repository.py:62-73 | the row of exactly this key, if any |
| Repository.Repository.GetLatestResult | src/wikipeople/repository.py:75-88 | the newest row of the page, ties to the highest id; it decides freshness at every cutoff |
| Repository.Repository.GetWork | src/wikipeople/repository.py:90-101 | the one row of exactly this key, if any |
| Repository.Repository.Enqueue | src/wikipeople/repository.py:103-166 | the look for an answer and the queue as two transactions, other sessions between them: nothing if the answer is there, else the queue's whole new state |
| Repository.Repository.EnqueueTransaction | src/wikipeople/repository.py:118-166 | the whole new state, with its invariant: insert or raise priority, supersede older pending rows, decline behind newer work |
| Repository.Repository.EnqueueAfterRace | src/wikipeople/repository.py:167-179 | the fallback updates priority and time of that key only |
| Repository.Repository.EnqueueIfStale | src/wikipeople/repository.py:181-204 | three transactions, each at its own time and other sessions between them: nothing while the newest answer is fresh, else an enqueue; true exactly when no answer was within the window and the key's row is pending or leased at the end |
| Repository.Repository.Claim | src/wikipeople/repository.py:206-238 | none exactly when every claimable row is locked by others; else a row that may be claimed and that no ready row outranks by priority or, at the same priority, by age, with one more attempt and a fresh lease |
| Repository.Repository.SaveResult | src/wikipeople/repository.py:240-254 | the saved row is there, every other row is as it was, and no other row has its key |
| Repository.Repository.Complete | src/wikipeople/repository.py:256-258 | the row is gone, whoever held it |
| Repository.Repository.Supersede | src/wikipeople/repository.py:260-273 | the row is superseded with its reason and without a lease |
| Repository.Repository.Fail | src/wikipeople/repository.py:275-299 | dead if permanent or out of attempts, else pending after its delay |
| Repository.Repository.Revive | src/wikipeople/repository.py:301-315 | a dead row, and only a dead row, starts a new life |
| Repository.Repository.Cleanup | src/wikipeople/repository.py:597-632 | exactly the dead and superseded rows last touched before the cutoff and the chosen results go; all others keep every field; the counts say how many |
| Repository.Repository.NamedContributorIds | src/wikipeople/repository.py:479-497 | every account a stored result of the wiki names, once, ascending, and no other |
| Repository.Repository.StandingRecords | src/wikipeople/repository.py:425-451 | one record per stored row of the wiki, filed under its id |
| Repository.RecordsAreAsStored | src/wikipeople/repository.py:425-451 | each with every stored field, under the id of its row |
| Repository.Repository.SetState | src/wikipeople/repository.py:580-587 | one key changes, no other |
| Repository.Repository.ReplaceStanding | src/wikipeople/repository.py:499-541 | the wiki's rows become exactly the records, each stored whole and with the time of the run; other wikis keep every row; rows after = rows before + added - removed |
| Repository.Repository.ReplaceOptout | src/wikipeople/repository.py:353-393 | the same for the opt-out list |
| Repository.ReplaceScoped | src/wikipeople/repository.py:363-393 | deleting the unwanted and writing the wanted row by row amounts to an exact, framed replacement |
| Attribution.CountTokens | src/wikipeople/attribution.py:16-28 | every editor's count is the number of its countable tokens, and the total is the sum of all counts |
| Attribution.OneMoreToken | src/wikipeople/attribution.py:16-28 | one more token adds one to its editor exactly when its text has a letter or digit |
| Attribution.HalfTokensDoNotCount | src/wikipeople/attribution.py:16-28 | a token without text or editor counts for nobody |
| Attribution.TotalCountsTokens | src/wikipeople/attribution.py:16-28 | the total is the number of countable tokens |
| Attribution.MostCommonSorts | src/wikipeople/attribution.py:89-89 | the ranking is a descending rearrangement of the counter |
| Attribution.MostCommonIsStable | src/wikipeople/attribution.py:89-89 | equal counts keep their order of first insertion |
| Selection.GateFirstNamesFirstEligible | src/wikipeople/attribution.py:89-111 | the loop names exactly the first `limit` eligible editors of the ranking |
| Selection.GateFirstRefinesExcludeFirst | src/wikipeople/attribution.py:95-100 | testing the gate before the exclusion rule names the same accounts and asks the global lookup about no account more often |
| Selection.AskedOnlyInContention | src/wikipeople/policy.py:84-113 | the global lookup is asked only about significant accounts nothing local excludes |
| Selection.AskedAboutEveryContender | src/wikipeople/attribution.py:89-111 | every significant account nothing local excludes is asked about while the list is not full |
| Selection.NamedWereAskedAbout | src/wikipeople/attribution.py:89-111 | whoever is named was asked about |
| Selection.RankedByBefore | src/wikipeople/attribution.py:59-59 | the ranking is ordered by count, then by first insertion |
| Selection.NamedIffFewAhead | src/wikipeople/attribution.py:59-111 | an eligible account is named exactly when fewer than `limit` eligible accounts were counted more often, or as often and first |
| Selection.PoolIsHarmlessIff | src/wikipeople/worker.py:176-187 | resolving only a pool names the same accounts exactly when the pool holds every account that resolving everyone would name |
| Selection.PoolCoveringEnough | src/wikipeople/attribution.py:31-34 | a pool is harmless if it covers a prefix that holds `limit` eligible accounts or all significant ones |
| Ladder.SelectContributors | src/wikipeople/attribution.py:76-111 | the loop with its gates computes the specified selection, its lookups and its shares |
| Ladder.SelectTopEditors | src/wikipeople/attribution.py:37-73 | the edit ranking meets the same top-k specification without gates |
| Ladder.RegisteredIffPositive | src/wikipeople/policy.py:57-58 | registered editors are the texts of digits that are not all zeros |
| Ladder.EligibleByTokensIff | src/wikipeople/attribution.py:89-104 | who is eligible by tokens: registered, resolved, both gates passed, and neither missing, temporary nor a bot by name, local or global group |
| Ladder.EligibleByEditsIff | src/wikipeople/attribution.py:59-67 | by edits: the same without the gates |
| Ladder.NamesCarryTheAccount | src/wikipeople/attribution.py:105-111 | a named contributor carries the resolved id and name, the count, and the share that makes up the count |
| Ladder.GatesFormPrefix | src/wikipeople/attribution.py:92-94 | the editors that pass both gates form a prefix of the ranking |
| Ladder.FewHoldShare | src/wikipeople/attribution.py:92-94 | at most floor(1 / minimum share) editors hold that share each |
| Ladder.PoolOfShareBoundSuffices | src/wikipeople/worker.py:176-187 | a pool at least that large names what resolving everyone names, whatever the counts and exclusions |
| Ladder.SmallerPoolCanLoseTheOnlyName | src/wikipeople/attribution.py:31-34 | below that bound, for every pool size and limit, there is a page whose only nameable editor is lost |
| Worker.LadderIsWellFounded | src/wikipeople/worker.py:151-225 | at most three names, and the token metric only with names that pass both gates |
| Worker.NobodyNamedIff | src/wikipeople/worker.py:176-200 | the token rung comes up empty exactly when no editor of the page is eligible |
| Worker.EditsOnlyWhenTokensNameNobody | src/wikipeople/worker.py:174-225 | tokens decide the names exactly when every lookup of the first rung is answered and some editor is eligible; edit counts name anyone only from a complete history |
| Worker.StoredAnswersAreOk | src/wikipeople/worker.py:111-135 | every answer a worker stores has at least as many contributors as names and well-founded names |
| Worker.StoredAnswersNameNoBots | src/wikipeople/policy.py:84-113 | every stored answer names at most three accounts, none missing from CentralAuth's answers, temporary or a bot by name or global group |
| Worker.TokenNamesAreTheFirstEligible | src/wikipeople/worker.py:174-200 | token names are the first three eligible editors among those resolved |
| Worker.EditNamesAreTheFirstEligible | src/wikipeople/worker.py:202-225 | edit names are the first three eligible accounts among the most frequent editors of a complete history |
| Worker.FirstFailureIs | src/wikipeople/attribution.py:98-99 | the error of a ranking is that of the first lookup that raises, and none if all answer |
| Worker.StoredCountsComeFromTheWiki | src/wikipeople/worker.py:111-135 | the stored count is editors less bots or the number of names if that is more; title, limit flag and token count are those reported |
| Worker.TransientErrorsStoreNothing | src/wikipeople/worker.py:174-225 | an answer is stored only if every error on the way was permanent and on the first rung |
| Worker.JobStoresOnlyTheCurrentRevision | src/wikipeople/worker.py:85-136 | a job that adds or changes a result saw namespace 0, no redirect and exactly the leased revision, and wrote the leased key only |
| Worker.JobRefusesOtherPages | src/wikipeople/worker.py:85-96 | another namespace or a redirect: the row is superseded and nothing else changes |
| Worker.JobRequeuesMovedPages | src/wikipeople/worker.py:97-109 | a page that moved on: the leased row ends superseded, nothing is stored, and work at the current revision is there unless a row or an answer of exactly that revision was |
| Worker.Worker.constructor | src/wikipeople/worker.py:29-45 | a worker starts running with its own id |
| Worker.Worker.AttributeByTokens | src/wikipeople/worker.py:174-200 | the first rung: its names, or the error that stopped it |
| Worker.Worker.Attribute | src/wikipeople/worker.py:151-225 | the whole ladder, failures of each upstream included |
| Worker.Worker.AttributeByEdits | src/wikipeople/worker.py:202-225 | its second rung |
| Worker.Worker.Process | src/wikipeople/worker.py:85-149 | an error that escapes leaves the tables alone; a page outside the main namespace or a redirect is superseded; one at another revision is superseded and its current revision asked for; only one at the leased revision is answered and completed; other sessions before each transaction |
| Worker.Worker.RunOnce | src/wikipeople/worker.py:50-83 | nothing exactly when nothing unlocked is claimable; else a row that was first in line is claimed and processed, other sessions before each transaction, as the upstreams dictate; over upstreams that report the current revisions it is a pass the draining argument covers |
| Worker.Worker.RunForever | src/wikipeople/worker.py:227-232 | turns follow one another up to the one in which the signal comes, whose job is finished, and no row is claimed after it; other sessions run between turns |
| Replica.CursorRoundTrip | src/wikipeople/replica.py:63-74 | every cursor survives its text, and no text of a cursor reads as complete or as a restart |
| Replica.CursorText | src/wikipeople/replica.py:63-74 | two texts of digits with a colon between them read as the cursor they spell |
| Replica.RestartText | src/wikipeople/replica.py:67-74 | exactly the texts of digits, one colon and digits are places to resume at; any other restarts the walk |
| Replica.BatchIsExact | src/wikipeople/replica.py:32-40 | every page of a batch is an article of the table with its latest revision and its length, they descend strictly by (length, id) under the cursor, and an article is missing only if the batch is full and ends before it |
| Replica.ShortBatchListsTheRest | src/wikipeople/replica.py:126-130 | a short batch lists every article left under the cursor |
| Walk.PagesByDescendingLength | src/wikipeople/replica.py:105-130 | one batch, each page with its latest revision and length, and where to resume: nowhere exactly when the batch is short, else at its last page |
| Walk.SteadyArticleListedOnce | src/wikipeople/backfill.py:60-91 | whatever else changes between batches, an article that stays put is listed exactly once by the time the walk is past its place, and not before |
| Walk.WalkDescends | src/wikipeople/replica.py:32-41 | the listing of a whole walk over a changing table is strictly descending, without repetition |
| Walk.FrozenWalkEnds | src/wikipeople/replica.py:126-130 | over an unchanging table of E articles the walk is complete after floor(E / limit) + 1 batches and not earlier |
| Walk.FrozenWalkListsExactlyArticles | src/wikipeople/replica.py:32-41 | and has then listed each article once and nothing else |
| Offering.EnqueuePages | src/wikipeople/backfill.py:45-57 | the queue after offering page by page, each transaction at its own time after whatever other sessions do, and exactly how many were reported as queued |
| Offering.QueuedAreCounted | src/wikipeople/backfill.py:45-57 | the count is that of the pages found without an answer in the window and with an active row of their key at the last look |
| Offering.OfferAllHandles | src/wikipeople/backfill.py:45-57 | after a batch is offered every page of it is fresh, queued, or behind newer work |
| Offering.OffersAddExactlyTheUnhandled | src/wikipeople/backfill.py:45-57 | offering a batch to any queue adds a row exactly for the pages that are by then neither fresh, queued nor behind newer work, rows for nothing else, and never two of one key |
| Offering.ReplayAddsExactlyTheUnhandled | src/wikipeople/backfill.py:69-84 | so does a replay of a batch, or of the part a crash left offered, in any later state of any run |
| Offering.ReplayAtOnceAddsNoRow | src/wikipeople/backfill.py:69-84 | before anything else happens, and at the same times, it adds none |
| Offering.ReplayASecondLaterCanAddARow | src/wikipeople/repository.py:190-193 | a queue to which a replay a second later adds a row |
| Backfill.SavedTextIsThePosition | src/wikipeople/backfill.py:28-28 | the text saved after a batch reads back as the position it stands for |
| Backfill.BackfillBatch | src/wikipeople/backfill.py:74-84 | one batch offered, other sessions in between, and its position saved, in that order |
| Backfill.BackfillByLength | src/wikipeople/backfill.py:60-91 | a run resumes at the saved place, offers every batch of the walk with other sessions in between, counts what it queued, leaves the text of where it stopped, and does nothing once complete |
| Backfill.RunsCountTheQueued | src/wikipeople/backfill.py:60-91 | a run's count is the sum of these over its batches |
| Resumption.EventKeepsCover | src/wikipeople/backfill.py:69-84 | every event, a crash between offering and saving included, keeps passed articles offered |
| Resumption.SavedCursorNeverSkips | src/wikipeople/backfill.py:60-91 | at every point of every history of runs, crashes and restarts each steady article at or before the saved place has been offered |
| Resumption.SteadyArticleOfferedOnce | src/wikipeople/backfill.py:60-91 | at every point of every such history a steady article has been offered once if the walk is past it and not before, plus at most once for each crash or restart; exactly so without them, however the walk is split into runs |
| Resumption.CompleteMeansOnce | src/wikipeople/backfill.py:60-91 | a backfill that completes without crash or restart has offered every steady article exactly once |
| Feeding.JobAddsRowIff | src/wikipeople/backfill.py:45-57 | beside readers, workers and cleanups, the job adds a row only when it enqueues a page it found without a fresh answer, and exactly when no row of the key and no newer work is there by then; never a second row of one key |
| Feeding.PassedMeansHandled | src/wikipeople/backfill.py:60-91 | in every such run each steady article at or before the saved place was offered, and had a fresh answer, a row or newer work at that moment; at most once more for each crash or restart |
| Feeding.AddedRowsAreLatestRevisions | src/wikipeople/replica.py:123-126 | every row the job adds is of the wiki and algorithm it feeds and of the latest revision that a fetched table held for its page |
| Policy.NameabilityOnlyGrows | src/wikipeople/policy.py:190-236 | for a fixed standing, a higher threshold or a later time never withholds a name that could be shown |
| Policy.WithheldExactlyWhenLastinglyExcluded | src/wikipeople/policy.py:141-236 | whose name is withheld, from the fields of the row alone, both ways: a sanction lock, or a full block still running, endless or longer than the threshold, without a courtesy reason |
| Policy.NeverPutForward | src/wikipeople/policy.py:84-113 | who is never put forward, both ways: missing, temporary, or a bot by name, local or global group |
| Standing.RecordsWriteSynced | src/wikipeople/standing.py:66-109 | the list the job writes fills the table with exactly the specified records |
| Standing.AskedOnce | src/wikipeople/standing.py:66-91 | every due account that was answered for is asked about once, nobody else |
| Standing.AskedFitsBudget | src/wikipeople/standing.py:55-64 | lock lookups stay within the budget of the run |
| Standing.OldChecksAreDue | src/wikipeople/repository.py:453-477 | a lock is due when never checked or checked longer ago than the interval |
| Standing.NewAccountsFillTheBudget | src/wikipeople/standing.py:55-64 | due are the candidates and new accounts: all of these, or as many as use the budget up |
| Standing.CompletedAreCounted | src/wikipeople/standing.py:81-108 | the checks reported are the accounts asked about that were answered for |
| Standing.RefreshOne | src/wikipeople/standing.py:78-108 | one account's record, and whether its lock check completed |
| Standing.CollectRecords | src/wikipeople/standing.py:66-109 | the loop's records, lookups and count of completed checks |
| Standing.SyncNamed | src/wikipeople/standing.py:51-136 | the run once blocks are read |
| Standing.SyncWiki | src/wikipeople/standing.py:35-136 | an exact, framed replacement within budget; a failed block pass and a dry run change nothing |
| Rotation.SyncIsExact | src/wikipeople/standing.py:66-109 | account by account: who is in the table, which fields are as MediaWiki and CentralAuth just said and which as they were |
| Rotation.HalfReadLockChangesNoVerdict | src/wikipeople/standing.py:81-93 | a check that fails, in either request, never changes whether the lock withholds the name |
| Witnesses.HalfReadLockStoresTheFlag | src/wikipeople/standing.py:81-93 | a check that finds the lock and not its reason, and what it stores |
| Rotation.MissedTurnMovesUp | src/wikipeople/repository.py:453-477 | a due account that is not checked moves up by the budget less the accounts in trouble, whatever happens to those |
| Rotation.DueAccountGetsItsTurn | src/wikipeople/standing.py:55-109 | with F accounts that may go unanswered or fail their checks, F below the budget N, any other due account is checked within ceil((K - F) / (N - F)) runs, however ties are broken |
| Rotation.EveryoneIsCheckedInTime | src/wikipeople/standing.py:55-109 | after one run more every other named account's lock has been confirmed, whatever the table held |
| Starvation.StuckAccountsStarveTheRest | src/wikipeople/standing.py:55-94 | while as many accounts as the budget are due, come before another and keep failing or going unanswered, that other account is not checked, in any sequence of runs |
| Starvation.StarvingRotation | src/wikipeople/standing.py:55-94 | such a sequence, for every budget, as many failing accounts or more, and any number of runs |
| Starvation.FairIff | src/wikipeople/standing.py:55-109 | every due untroubled account is checked within as many runs as there are accounts exactly when fewer accounts are in trouble than the budget |
| Withholding.SanctionIsEnforcedInTime | src/wikipeople/app.py:50-82 | a named account that is due and locked as a sanction from then on is shown in no answer built after a run that comes within ceil((K - F) / (N - F)) runs |
| Rotation.CandidatesExist | src/wikipeople/repository.py:453-477 | the rotation query can always be answered |
| Presentation.RelaxingNeverDropsNames | src/wikipeople/app.py:50-82 | relaxing the threshold or letting time pass keeps the shown names in their stored order and only adds |
| Presentation.ShownAndOthersAddUp | src/wikipeople/app.py:85-113 | shown + other = distinct for every opt-out, standing and rule, and exactly which names are shown |
| Presentation.StoredRowsAreOk | src/wikipeople/worker.py:111-135 | in every state of every run in which workers store what they compute from whatever the upstreams say, all stored rows have distinct >= names and well-founded token names |
| Presentation.EveryStoredRowAddsUp | src/wikipeople/app.py:85-113 | so an answer built from any of them has shown + other = distinct |
| Endpoints.AskingLeavesNoJobIff | src/wikipeople/repository.py:119-166 | the transaction behind a 202 leaves no active row at the revision or later exactly when it finds the requested row dead or superseded and nothing newer active |
| Endpoints.PendingIsBacked | src/wikipeople/app.py:219-246 | a request nobody interrupts is promised work that is there, unless the requested row was superseded with nothing newer active; exactly then |
| Requests.EventKeepsWorld | src/wikipeople/app.py:174-373 | through every transaction of anybody, a request that has looked knows every dead row of its key: it saw it, or a worker failed it since |
| Requests.UnbackedPromiseIff | src/wikipeople/app.py:219-246 | in every run of requests beside workers, a 202 is unbacked when decided exactly when nothing newer is active and the requested row is superseded, or failed since the request looked, or gone; gone only if an answer came in or another session's insert won |
| ReaderRuns.PromiseNobodyKeeps | src/wikipeople/app.py:219-246 | a run from empty tables, the worker within its lease, that ends in a 202 with no job, no answer and a permanently failed row |
| ReaderRuns.RefusedIff | src/wikipeople/app.py:222-237 | a request gets 503 exactly when it has no answer to serve and finds the row dead, for good or not yet ripe |
| ReaderRuns.EveryServedAnswerAddsUp | src/wikipeople/app.py:85-113 | in every run in which workers store what they compute, every answer either endpoint serves has shown + other = distinct and names nobody who is not stored |
| Correspondence.PassIsSteps | src/wikipeople/worker.py:50-149 | a worker's pass in one piece leaves what the steps of the interleaved model leave one after the other |
| Correspondence.RequestFindsAsTheEndpoint | src/wikipeople/app.py:271-279 | a request of the interleaved model serves what it finds, and refreshes it only if it asks by freshness and the window has ended |
| Correspondence.RequestLooksAsTheEndpoint | src/wikipeople/app.py:219-237 | it looks, revives and is refused as the endpoint |
| Correspondence.RequestAsksAsTheEndpoint | src/wikipeople/app.py:239-246 | and asks the queue as the endpoint |
| Correspondence.OfferIsDeeds | src/wikipeople/backfill.py:45-57 | an offer of the backfill is the deeds of `Feeding` |
| Correspondence.BatchIsEvents | src/wikipeople/backfill.py:69-84 | a batch of the backfill is the events of `Resumption`: it offers the batch in order and saves its position |
| Endpoints.StaleIsQueuedStrictlyLater | src/wikipeople/app.py:275-276 | the endpoint calls an answer stale one instant before the queue does |
| Witnesses.StaleAnswerIsNotQueued | src/wikipeople/app.py:275-276 | a run from empty tables that ends in such an instant |
| Endpoints.Api.constructor | src/wikipeople/app.py:116-118 | the endpoints share one repository |
| Endpoints.FieldsFollowTheTables | src/wikipeople/app.py:50-113 | what a ready answer shows, from the stored tables: opted out exactly when the opt-out table has the page, then nobody; else exactly the stored contributors whose standing row, if any, does not withhold them |
| Endpoints.RefusedRows | src/wikipeople/app.py:222-237 | a request is refused exactly for a dead row that failed for good or was touched within the retry time |
| Endpoints.Api.ReviveOrRefuse | src/wikipeople/app.py:219-237 | refused exactly when the row is dead, permanent or not ripe; else a ripe dead row is revived, after whatever other sessions did since the look |
| Endpoints.Api.PageAttribution | src/wikipeople/app.py:174-256 | v1 as its transactions, other sessions before each: a ready answer is a stored row of exactly the key, shown as the opt-out and standing tables say, no name under a sanction lock; what the queue holds, and that a 202 leaves active work, an ended row or an answer |
| Endpoints.Api.PageAttributionByFreshness | src/wikipeople/app.py:258-373 | v2 the same way: the newest stored answer of the page, shown as the tables say, fresh exactly within the window and else refreshed behind the reader's back, and what each transaction leaves |
| Endpoints.StaleAnswersRetryDeadRows | src/wikipeople/app.py:279-301 | with nobody else there, a stale answer that is not being refreshed had no dead row of the requested revision that was ready to be tried again |
| Pagination.CategoryMembers | src/wikipeople/clients.py:448-485 | the first `limit` members whatever the batches, and when the list is reported as cut |
| Pagination.FlagIsRightIff | src/wikipeople/clients.py:461-485 | the flag is right except for an exact fit that ends in an empty batch |
| Witnesses.WholeListReportedAsCut | src/wikipeople/clients.py:461-485 | a list of one member, complete, that is reported as cut |
| Pagination.NonemptyBatchesDoNotMatter | src/wikipeople/clients.py:461-485 | for nonempty batches the flag does not depend on how the list was cut up |
| Pagination.TallyBatch | src/wikipeople/clients.py:244-248 | one reply's revisions are added to the right accounts |
| Pagination.GetEditorHistory | src/wikipeople/clients.py:215-253 | complete exactly when the page is there and the budget outlasts the history, and then every tally is exact |
| Pagination.ShortHistoriesAreComplete | src/wikipeople/clients.py:225-253 | a history within the budget whose last batch is not empty is always read to its end |
| OptOutPage.StripLeavesTheVisible | src/wikipeople/optout.py:30-30 | stripping comments leaves exactly the text outside them, wherever they stand and whatever they hold |
| OptOutPage.UnclosedCommentHidesNothing | src/wikipeople/optout.py:30-30 | an opener that is never closed stays text, and so does all that follows |
| OptOutPage.EntriesAreBulletsWithLinks | src/wikipeople/optout.py:33-53 | whatever lists a title is a line of blanks, stars, blanks and two brackets |
| OptOutPage.EntryLineReadsBack | src/wikipeople/optout.py:33-53 | an entry's title is read back from every layout: indents, stars, blanks, leading colons, display text, section, notes |
| OptOutPage.PlainBulletReadsBackIff | src/wikipeople/optout.py:47-53 | a plain bullet lists its text unchanged exactly when the text is a clean title |
| OptOutPage.TitlesSpelledOut | src/wikipeople/optout.py:33-53 | which titles are clean, character by character |
| Witnesses.UnderscoreBecomesALeadingBlank | src/wikipeople/optout.py:47-53 | a title that reads back with a leading blank |
| OptOutPage.FirstOccurrencesAre | src/wikipeople/optout.py:45-56 | deduplication loses no title and keeps the order of first mention |
| OptOutPage.ParseOptoutPage | src/wikipeople/optout.py:36-56 | the loop computes the specified list |
| OptOutPage.PageReadsBack | src/wikipeople/optout.py:36-56 | entries amid other lines and comments read back as their titles, each where first mentioned |
| OptOutPage.TargetsAreSpelled | src/wikipeople/clients.py:427-434 | no listed title is empty or holds the separator under which titles are sent on |
| OptOut.CollectArticles | src/wikipeople/optout.py:74-80 | first pass: one entry per listed article, under its last title; missing pages noted |
| OptOut.AddMembers | src/wikipeople/optout.py:91-99 | a category only adds articles that have no entry yet |
| OptOut.CollectCategories | src/wikipeople/optout.py:82-99 | second pass: the first category that reaches an article is its reason |
| OptOut.CollectEntries | src/wikipeople/optout.py:59-101 | an article is covered exactly when listed or in a listed category, once, for the right reason; nothing if any reading fails |
| OptOut.NothingIsDroppedSilently | src/wikipeople/optout.py:74-90 | if nothing is noted, every listed title is an article or a category and every member is covered |
| OptOut.WantedAreTheEntries | src/wikipeople/repository.py:362-362 | the dictionary built from the entries holds each of them |
| OptOut.SyncWiki | src/wikipeople/optout.py:104-142 | afterwards the wiki's stored list is exactly the covered articles; other wikis, failed readings and dry runs change nothing |
| OptOut.ListedTitleIsStored | src/wikipeople/optout.py:104-142 | from page text to table: an entry in any layout that resolves to an article opts that article out |

## Left out

- HTTP, JSON, SQLAlchemy, transaction isolation levels and replica connections: upstream answers are parameters, any of which may be a failure, and each transaction is one atomic step.
- Queries that leave a choice open (equal lock times, the capped cleanup, rows locked by other sessions) take the choice as a parameter that the query's own conditions restrict.
- Clocks: times are whole numbers, and several readings of the clock within one transaction are one value.
- Draining.DrainingIsBounded: one pass at a time; any number of workers at once is `Overlap`.
- Offering.OfferAllHandles and the lemmas on replays beside it: nobody else touches the queue within one batch; with everybody else at the queue, page by page, it is `Feeding`.
- Requests.UnbackedPromiseIff: that the row another session's insert won with has left the queue answered or expired is `QueueSafety.RowsLeaveAnsweredOrExpired`, not repeated there.
- Database errors in the middle of a job: a crash may come between any two transactions instead.
- The word lists of the bot, temporary-account, sanction and courtesy patterns: they are predicates on text (`Policy.Wording`).
- The rounding of `share` to four places: shares are exact quotients.
- The cache of global user lookups: `Selection` records which accounts are asked about, repeated questions included.
- The ETag and conditional requests, the payload fields copied unchanged into a response, and response headers.
- `backfill_by_title`, `prewarm`, `migrate`, `register_active_wiki`, statistics, `SiteResolver`, `Settings` and command lines: thin loops or single branches.
- The gadget, its styles and its on-wiki configuration.
- Digits outside ASCII, and numbers spelled with leading zeros by an upstream: editors and cursors are decimal text.
- Category members of other namespaces, redirects and title normalisation: MediaWiki resolves titles, so the resolution is a parameter of `OptOut`.
