# Lease-fenced queues, their workers, and the type-text printer

A Dafny model of the parts of this repository whose correctness is least visible from reading one function:

- **The lease protocol** shared by the outbox and the email table (`packages/drizzle/src/lease.ts`). A claim adds one to `attempts` and pushes `nextAttemptAt` past the lease; every later write names the pair (id, attempts) and lands only while it matches an unsettled row; a release subtracts one again. `Lease.dfy` is that protocol alone; `OutboxSystem.dfy` (with `OutboxShortRequeue.dfy`) and `EmailSystem.dfy` are the two queues with any number of workers, and every one of their steps is proved to be a step of it.
- **The outbox**: repository statements (`OutboxRepository.dfy`), what a record's turn turns into and how lanes share a claim (`OutboxRelay.dfy`), the drain loop (`OutboxDispatcher.dfy`), the LISTEN connection (`PgListener.dfy`), retry delays (`Jitter.dfy`).
- **Email delivery**: queue statements (`EmailQueue.dfy`), grouping, chunks and settlements (`EmailWorker.dfy`, `EmailBatch.dfy`), whole runs (`EmailSystem.dfy`), the size of a batch (`EmailKeys.dfy`), stable resends (`EmailResend.dfy`) and why they need timely key writes (`EmailLateKey.dfy`).
- **Type text**: the bracket- and quote-aware scanner (`TypeScan.dfy`), the mutually recursive canonical printer with its termination measure (`TypeText.dfy`), what alike texts share (`TypeCanon.dfy`), the rewrites the canonical form ignores (`TypeRewrite.dfy`), what it shows (`TypeShown.dfy`) and where the order of a union shows (`TypeHead.dfy`), why it is its own canonical form (`TypeStable.dfy`, `TypeFixpoint.dfy`), and that declarations rendered from syntax trees are such text (`TypeWhole.dfy`, `TypeSyntax.dfy`).

Conventions. A SQL statement, and a transaction of the unit of work, is one atomic step on a table held as a map. Times are ticks of the database clock; `now` is the start of a statement's transaction, which in a longer transaction may lie before the clock. A claim may skip any set of locked rows. A worker may act at any later time, or never. Ids are natural numbers, used for equality and order. Handlers, the provider, rendering and random draws are parameters with arbitrary values; the digest behind a batch key is taken to be injective, so a key is the set of ids it was made from.

What turned out false of the code or rests on an assumption, each with a concrete witness and its condition:

- A retry delay is not a number exactly when the growth curve overflows the double range and the random draw is zero (`Jitter.RetryWithinBounds`); attempt counts up to 500 are safe.
- A handler named `constructor` is never run, because `in` also answers for inherited keys, and its row is delivered without it (`OutboxSystem.EverySubscriberRecorded`, `OutboxSystem.InheritedNameIsSkipped`).
- A requeue that compares with any shorter lease than claims use hands out a leased row twice (`OutboxShortRequeue.ShortRequeueBreaksExclusion`); today both lengths come from one setting (`apps/api/src/container.ts:254`, `apps/api/src/composition/settings.ts:122`).
- A connect that rejects after the timer its own error armed has fired leaves two listening clients; that step, and no other, breaks the single connection (`PgListener.StepUnique`).
- A worker that writes its batch key after its lease expired can send a message again under another key (`EmailLateKey.LateKeyBreaksResend`). Such a write keeps messages under one key exactly when no row carries a key other than the one written, and keeps later sends within the earlier ones exactly when no message of the chunk had dropped out at a later claim that already sent under that key (`EmailLateKey.LateKeyIsHarmless`).
- Permuting a union is not ignored everywhere outside an `extends` type. The operands are what stands between the top-level bars, so words before the union belong to its first operand: in a type predicate `v is A | B`, the names of a mapped type `[K in A | B]` and a default type argument `T = A | B` another first operand gives another canonical form (`TypeHead.TypePredicateOrderShows`). Such a permutation is ignored exactly when the first operand prints the same (`TypeHead.HeadShows`, at the top level `TypeHead.HeadShowsAtTop`, inside brackets `TypeHead.HeadShowsAtAnyDepth`); in general two unions agree exactly when their operands, read that way, print the same in some order (`TypeShown.UnionsAgree`).

## Model

| member | source | states |
|---|---|---|
| Lease.DeadShareOf | packages/drizzle/src/lease.ts:18-22 | the dead share is the least whole number that is at least a quarter of the limit |
| Lease.TokensAreUnique | packages/drizzle/src/lease.ts:40-59 | of two outstanding claims of a row the later one has the larger token, although releases lower it |
| Lease.FenceMeaning | packages/drizzle/src/lease.ts:40-42 | the fence matches exactly when the row is unsettled and every later claim of it was given back |
| Lease.FenceTheorem | packages/drizzle/src/lease.ts:40-59 | both, over every run from the empty table, late and crashed workers included |
| Lease.StepExclusive | packages/drizzle/src/lease.ts:24-52 | while a held lease runs, its row stays exactly as its claim left it, and no lease ends later than clock plus lease |
| Lease.MutualExclusion | packages/drizzle/src/lease.ts:24-52 | at any database time at most one outstanding claim of a row is unexpired, over every run |
| Ordering.Sort | packages/outbox/src/drizzle-outbox.repository.ts:71-73 | returns every selected id once, ordered by time and then id |
| Ordering.OrderIsUnique | packages/email/src/drizzle-email-queue.ts:191-197 | a set of rows has only one such order |
| Ordering.LiveShare | packages/outbox/src/drizzle-outbox.repository.ts:109-118 | of an ordered union under one limit, dead rows take at most their share and live rows keep the rest |
| Jitter.RetryWithinBounds | packages/outbox/src/jitter.ts:15-32 | the retry delay lies in [1, 43200] seconds for every attempt count, except exactly when the curve overflows and the draw is zero |
| Jitter.RetryFollowsGrowth | packages/outbox/src/jitter.ts:15-32 | the delay stays below the growth curve rebuilt from the attempt count |
| Jitter.RetryExactly | packages/outbox/src/jitter.ts:15-32 | the delay to the second: base plus draw times the rest of the growth curve, floored to milliseconds, cut at twelve hours, rounded up |
| Jitter.RetryGrowsWithDraw | packages/outbox/src/jitter.ts:15-19 | at one attempt count a larger draw never means a shorter wait |
| Jitter.RetryGrowsWithAttempts | packages/outbox/src/jitter.ts:26-32 | with one draw more attempts never mean a shorter wait |
| Jitter.OverflowRange | packages/outbox/src/jitter.ts:26-28 | no overflow up to 500 attempts; from 1024 on a zero draw gives no number |
| Jitter.ScheduleBound | packages/outbox/src/jitter.ts:45-52 | a scheduled retry is the dead cadence or exactly the drawn delay, between one second and twelve hours, and dead exactly when it was dead or the attempts are used up |
| Jitter.ScheduleMissing | packages/outbox/src/jitter.ts:45-52 | a schedule has no delay exactly for a row that is not dead, has attempts left, and whose curve overflowed under a zero draw |
| OutboxRepository.PickIsClaimable | packages/outbox/src/drizzle-outbox.repository.ts:85-118 | a claim takes only undelivered, due rows of its types that nobody holds locked; a dead one only once its time has come |
| OutboxRepository.ClaimNeverStarvesLive | packages/outbox/src/drizzle-outbox.repository.ts:91-118 | at most a quarter of the limit is dead, at least min(free live, rest of the limit) is live; no live row overtakes a free one that occurred before it, no dead row a free one due sooner, and the limit cuts off the latest |
| OutboxRepository.ClaimRaisesTokens | packages/outbox/src/drizzle-outbox.repository.ts:124-138 | a claim raises token and due time of the rows it takes and nothing else, and its records show the rows as they then are |
| OutboxRepository.PickExists | packages/outbox/src/drizzle-outbox.repository.ts:91-118 | whatever is locked, a claim has an answer |
| OutboxRepository.DueInIsFirstClaim | packages/outbox/src/drizzle-outbox.repository.ts:207-247 | the wait reported is never negative, and exactly the time until some row is claimable, if nothing else is written |
| OutboxRepository.EnqueueAdds | packages/outbox/src/drizzle-outbox.repository.ts:147-176 | enqueueing adds exactly the ids not known yet, each as its first event, never tried, and leaves every known row alone |
| OutboxRepository.DrizzleOutboxRepository.Claim | packages/outbox/src/drizzle-outbox.repository.ts:178-205 | returns every selected row once, sorted, with its token raised, and changes no other row |
| OutboxRepository.LostLeaseWritesNothing | packages/outbox/src/drizzle-outbox.repository.ts:323-347 | a settlement whose token no longer matches, or whose row is delivered or gone, writes nothing |
| OutboxRepository.DeliveryCloses | packages/outbox/src/drizzle-outbox.repository.ts:266-276 | a delivered row has its delivery time, no due or death time and, handler by handler, the new deliveries over the old; no other row changes, and no settlement, retry, release or requeue changes it again |
| OutboxRepository.FailureWaits | packages/outbox/src/drizzle-outbox.repository.ts:278-285 | a failed row carries the error, is claimable exactly once its retry time has come, keeps its token and first death, and has, handler by handler, what the turn delivered over what it had; nothing else changes |
| OutboxRepository.ReleaseUndoesClaim | packages/outbox/src/drizzle-outbox.repository.ts:287-289 | a release takes back what the claim did: only the time the row is due differs |
| OutboxRepository.RequeueMakesDue | packages/outbox/src/drizzle-outbox.repository.ts:291-321 | a requeue makes exactly the named dead rows claimable that would not have been due within a lease, and touches no other row and no token |
| OutboxRelay.Relay.Settle | packages/outbox/src/outbox-relay.ts:167-192 | one record's turn, if its lease still holds, takes the attempt back exactly when it was cut off, delivers exactly when there were subscribers and all that ran succeeded, and else records the failure with its error, retry time, death and announcement; what succeeded is recorded, nothing else changes, and the counters say which it was |
| OutboxRelay.Relay.SettleFailure | packages/outbox/src/outbox-relay.ts:194-245 | failure and announcement commit together; deaths are counted once |
| OutboxRelay.Relay.Release | packages/outbox/src/outbox-relay.ts:160-165 | a release counts only when it landed |
| OutboxRelay.EachBounded | packages/outbox/src/outbox-relay.ts:143-158 | records are taken in order, each once, always by the living lane that is free first; no more at once than the concurrency; a lane stops at its first rejection, records are left only when every lane stopped, and the drain reports a rejection exactly when one happened |
| OutboxRelay.AtMostConcurrency | packages/outbox/src/outbox-relay.ts:143-158 | never more records are under way at once than the concurrency allows, and without a lane none is taken |
| OutboxRelay.FirstRoundStartsAtOnce | packages/outbox/src/outbox-relay.ts:153-155 | every lane is put to use: the first records, one a lane, start at once |
| OutboxRelay.LanesWorkApart | packages/outbox/src/outbox-relay.ts:143-158 | two turns of one lane never overlap |
| OutboxRelay.GreedyOnSchedule | packages/outbox/src/outbox-relay.ts:143-158 | with turns of at most one budget, record i ends by (i / lanes + 1) budgets |
| OutboxRelay.ClaimLimitIsLargest | packages/outbox/src/outbox-relay.ts:57-65 | the claim limit is the largest number of records that fits the batch size and the rounds whose handler budgets fit the lease up to the settle margin, one round at least |
| OutboxRelay.ClaimEndsWithinLease | packages/outbox/src/outbox-relay.ts:57-65 | a claim of at most the claim limit is worked off whole before the settle margin of the lease, for any durations in milliseconds within the budget |
| OutboxSystem.StepRefines | packages/outbox/src/drizzle-outbox.repository.ts:83-139 | every outbox step is a run of the lease protocol |
| OutboxSystem.OutboxFence | packages/outbox/src/drizzle-outbox.repository.ts:323-347 | over every run tokens are unique, and a settle writes exactly when the row is undelivered and every later claim was given back |
| OutboxSystem.OutboxMutualExclusion | packages/outbox/src/drizzle-outbox.repository.ts:85-139 | over every run no two relays hold an unexpired lease on one row, given the two lease lengths agree |
| OutboxSystem.RequeueSparesLiveLease | packages/outbox/src/drizzle-outbox.repository.ts:291-321 | in every reachable state a requeue leaves a row under an unexpired claim exactly as it is, given the two lease lengths agree |
| OutboxSystem.SettlementOutcome | packages/outbox/src/outbox-relay.ts:167-245 | in every reachable state a landed settlement lowers the attempts exactly when the turn was cut off, delivers exactly when all that ran succeeded, and else keeps the token, carries the error and the scheduled wait, and is dead exactly when it was or its attempts are used up; one that does not land writes nothing |
| OutboxShortRequeue.ShortRequeueBreaksExclusion | packages/outbox/src/drizzle-outbox.repository.ts:299-308 | with any shorter requeue lease a run gives a dead row to two unexpired claims |
| OutboxSystem.AnnouncedExactlyAtDeath | packages/outbox/src/outbox-relay.ts:223-235 | an announcement about a row appears in the very step that kills it and in no other, and never about an announcement |
| OutboxSystem.DeathAnnouncedOnce | packages/outbox/src/outbox-relay.ts:291-309 | over every run a row has at most one announcement |
| OutboxSystem.AnnouncementsDoNotCascade | packages/outbox/src/outbox-relay.ts:230-233 | over every run announcements never outnumber ordinary rows |
| OutboxSystem.DeathAndDeliveryAreFinal | packages/outbox/src/drizzle-outbox.repository.ts:266-285 | a death time keeps its first value until delivery; a delivered row never changes again |
| OutboxSystem.NoEventLost | packages/outbox/src/drizzle-outbox.repository.ts:81-108 | over every run an undelivered row becomes claimable within max(lease, dead retry, 12 h) without any further write |
| OutboxSystem.DispatchedRowIsDelivered | packages/outbox/src/outbox-relay.ts:167-183 | a row is delivered only by a settlement that had subscribers, which leaves each recorded unless it is an inherited key |
| OutboxSystem.EverySubscriberRecorded | packages/outbox/src/outbox-relay.ts:247-264 | a delivery records every subscriber exactly when none of them is an unrecorded inherited key |
| OutboxSystem.InheritedNameIsSkipped | packages/outbox/src/outbox-relay.ts:251 | a handler named after an inherited key is skipped and its row delivered |
| OutboxSystem.DeliveriesOnlyGrow | packages/outbox/src/drizzle-outbox.repository.ts:79-80 | no step forgets a recorded delivery |
| OutboxSystem.RecordedHandlerNeverRunsAgain | packages/outbox/src/outbox-relay.ts:249-253 | over every run, a handler recorded before a claim is not run by that claim |
| OutboxSystem.SucceededHandlerNeverRunsAgain | packages/outbox/src/outbox-relay.ts:247-264 | a handler that succeeded in a turn that delivered or recorded a failure is on the row at the time of the turn, and no later claim of the row runs it, over every run |
| OutboxDispatcher.NextWakeBounds | packages/outbox/src/outbox-dispatcher.ts:116-133 | the next wake lies within the poll interval, immediate only after a drain that settled something, and otherwise follows the due time |
| OutboxDispatcher.NextWakeIsLeast | packages/outbox/src/outbox-dispatcher.ts:116-133 | the next wake is the least delay the due time, the floor after an idle drain and the poll interval allow; two seconds after a failed drain |
| OutboxDispatcher.Dispatcher.Start | packages/outbox/src/outbox-dispatcher.ts:54-64 | a first start makes the dispatcher running, a second start changes nothing |
| OutboxDispatcher.StepSound | packages/outbox/src/outbox-dispatcher.ts:92-114 | every wake, timer, drain end, start and stop keeps: one loop at most, a timer exactly when running at rest, none when stopped |
| OutboxDispatcher.Dispatcher.EndDrain | packages/outbox/src/outbox-dispatcher.ts:105-114 | a finished drain begins another exactly if one was asked for or is due at once, else rests with the timer set to the next wake, or without one when stopped |
| OutboxDispatcher.Dispatcher.Stop | packages/outbox/src/outbox-dispatcher.ts:66-80 | a stop clears the timer and leaves only the running drain |
| OutboxDispatcher.AlwaysSound | packages/outbox/src/outbox-dispatcher.ts:92-114 | over every run at most one drain loop runs, and a running dispatcher at rest has its timer armed for at most 30 s |
| OutboxDispatcher.NoLostWakeup | packages/outbox/src/outbox-dispatcher.ts:92-114 | every wake before a stop is followed by a drain that begins at or after it |
| OutboxDispatcher.NothingDrainsAfterStop | packages/outbox/src/outbox-dispatcher.ts:66-80 | from a stop on no drain begins until the next start, and none runs once the stop is done |
| PgListener.StepTidy | packages/outbox/src/pg-listener.ts:89-241 | whatever clients do: only created clients are wired or adopted, the adopted one is not disposed, backoff stays in bounds, nothing is armed while stopping |
| PgListener.DisposedForGood | packages/outbox/src/pg-listener.ts:155-198 | over every run a disposed client stays disposed, relays nothing and is never adopted |
| PgListener.BackoffDoubles | packages/outbox/src/pg-listener.ts:229-241 | over every run without an adoption the backoff is what it was, doubled once for each reconnect it scheduled, at most the maximum |
| PgListener.BackoffSinceAdoption | packages/outbox/src/pg-listener.ts:168-241 | since the last adoption it is the base times two to the number of reconnects scheduled, at most the maximum |
| PgListener.StepUnique | packages/outbox/src/pg-listener.ts:89-241 | a step keeps exactly one of connecting client, adopted client and timer, except exactly a late rejection; one that loses the client tears it down and arms the timer |
| PgListener.LostConnectionIsReplaced | packages/outbox/src/pg-listener.ts:125-241 | after an error, an end or a failed heartbeat of the current client, or a failed connect, that client is torn down and relays nothing, and the timer then connects a client never seen before |
| PgListener.TimerStartsUnseen | packages/outbox/src/pg-listener.ts:229-241 | in any running state the timer starts a client never seen before, with its handlers attached |
| PgListener.AdoptedExactly | packages/outbox/src/pg-listener.ts:155-164 | a connect that comes back is adopted, with a heartbeat and the base backoff, exactly when its client was not torn down meanwhile and no stop came |
| PgListener.OneConnection | packages/outbox/src/pg-listener.ts:89-241 | over every run without a late rejection: one stands, at most one client relays, a disposed client is never adopted, backoff stays in bounds |
| PgListener.LateRejectionLeavesTwoClients | packages/outbox/src/pg-listener.ts:168-173 | one late rejection can leave two adopted clients relaying |
| PgListener.StopIsFinal | packages/outbox/src/pg-listener.ts:94-113 | after a stop no client is created or adopted and no timer is armed |
| EmailQueue.PickIsDue | packages/email/src/drizzle-email-queue.ts:51-101 | a claim takes only unlocked rows, siblings included, that are pending and due, or dead, within the replay window and at their retry time |
| EmailQueue.ClaimedExactly | packages/email/src/drizzle-email-queue.ts:87-101 | a claim takes exactly what it picked and, whatever the limit, every free due row that shares a batch with a picked one |
| EmailQueue.ClaimNeverStarvesPending | packages/email/src/drizzle-email-queue.ts:60-86 | dead replays take at most a quarter of the limit and pending rows keep the rest; no pending row overtakes a free one created before it, no dead row a free one due sooner, and the limit cuts off the newest |
| EmailQueue.ClaimRaisesTokens | packages/email/src/drizzle-email-queue.ts:102-115 | a claim raises token and due time of the rows it takes and nothing else; its records show the rows as they then are, with how many of their batch are pending or dead within the window |
| EmailQueue.WholeMeansAllReplayable | packages/email/src/drizzle-email-queue.ts:102-115 | a batch looks whole by count exactly when every row of it that may still be sent was claimed |
| EmailQueue.BatchComesWhole | packages/email/src/drizzle-email-queue.ts:87-101 | a claim that touches a batch takes it whole exactly when none of its sendable rows is locked or not yet due |
| EmailQueue.StatementSplits | packages/email/src/drizzle-email-queue.ts:243-269 | a statement over several leases equals the same statement over each in turn |
| EmailQueue.WrittenExactlyLeased | packages/email/src/drizzle-email-queue.ts:47-49 | a statement writes exactly the rows whose lease is named and still matches |
| EmailQueue.DrizzleEmailQueue.Claim | packages/email/src/drizzle-email-queue.ts:174-205 | returns every selected row once, in creation order, with its batch size, and changes no other row |
| EmailQueue.SentCloses | packages/email/src/drizzle-email-queue.ts:217-234 | a message marked sent has its time and provider id, no error and no due time, no lease matches it again, and no other row changes |
| EmailQueue.FailureClosesOrWaits | packages/email/src/drizzle-email-queue.ts:118-127 | a failure carries its error; a final one closes the message; any other keeps its lease and batch and makes it due exactly when its retry time has come, a dead one only within the window |
| EmailQueue.AssignKeepsLeases | packages/email/src/drizzle-email-queue.ts:236-241 | a key write changes the key of exactly the leased rows, and every lease matches what it matched before |
| EmailQueue.ReleaseUndoesClaim | packages/email/src/drizzle-email-queue.ts:278-300 | a release takes back what the claim did: only the time the message is due differs |
| EmailWorker.GroupRows | packages/email/src/email-delivery-worker.ts:418-430 | the insertion-ordered map holds, per key in order of first appearance, the rows of that key in order |
| EmailWorker.GroupedExactlyAlike | packages/email/src/email-delivery-worker.ts:418-430 | two rows share a group exactly when they are of one batch, or outside any and of one kind, template, lane and number of attempts |
| EmailWorker.GroupsPartition | packages/email/src/email-delivery-worker.ts:418-430 | grouping loses no row and invents none |
| EmailWorker.SlicesPartition | packages/email/src/email-delivery-worker.ts:168-174 | slices are non-empty, all but the last exactly 100 long, the last at most, and put together again are the group |
| EmailWorker.ClaimLimitIsLargest | packages/outbox/src/lease-budget.ts:10-12 | a claim is limited to the largest number of full chunks, three at most, whose sends fit the lease with the margin, one at least |
| EmailWorker.CoversExactly | packages/outbox/src/lease-budget.ts:14-23 | the lease covers another chunk exactly when any send within the timeout would end before the settle margin |
| EmailWorker.SendWhileCovered | packages/email/src/email-delivery-worker.ts:175-180 | every chunk after the first starts only while a full send and the margin fit; the rest goes back |
| EmailWorker.DrainOnce | packages/email/src/email-delivery-worker.ts:149-186 | each claimed row ends in exactly one of incomplete release, tail release or one sent chunk; it is released as incomplete exactly when its group was not claimed whole |
| EmailWorker.FailureOfChunk | packages/email/src/email-delivery-worker.ts:316-324 | the chunk is dead exactly when a row was dead or a row used up its attempts; it then waits the dead cadence, else the delay of its most tried row |
| EmailWorker.SettleAccepted | packages/email/src/email-delivery-worker.ts:248-268 | position by position: a reported row is failed for good with the error reported for it, every other row is in the one call that marks rows sent, with the provider id of its position exactly when the answer lines up and names one |
| EmailWorker.AcceptedPartitions | packages/email/src/email-delivery-worker.ts:248-268 | those calls cover every row of the chunk exactly once |
| EmailWorker.SettleRejected | packages/email/src/email-delivery-worker.ts:295-314 | a refusal is one call about the whole chunk: released for a minute if in flight, failed as the chunk decides if retryable, else failed for good with the error |
| EmailWorker.SendChunk | packages/email/src/email-delivery-worker.ts:223-273 | every claimed row is in exactly one call: those that do not render fail one by one; the others are released when the key did not land on all of them, and else settled as the provider answered, position by position if it accepted; nothing is sent unless the key landed |
| EmailWorker.SettleFailures | packages/email/src/email-delivery-worker.ts:326-344 | one transaction fails the leased rows and announces, once each, exactly those that exhaust now |
| EmailBatch.WholeGroupIsWholeBatch | packages/email/src/email-delivery-worker.ts:414-416 | whatever was skipped, a group with a key passes as whole exactly when it is all rows of that batch that may still be sent |
| EmailBatch.LooseGroupIsWhole | packages/email/src/email-delivery-worker.ts:414-416 | rows outside any batch always pass as whole |
| EmailKeys.BatchFitsAChunk | packages/email/src/email-delivery-worker.ts:394-401 | over every run, late workers included, no key is on more than 100 messages |
| EmailKeys.BatchIsSentWhole | packages/email/src/email-delivery-worker.ts:165-175 | over every run, a chunk that carries a key is exactly the messages of that batch that were pending or in-window dead at its claim, so no batch is split by slicing |
| EmailBatch.ChunkFacts | packages/email/src/email-delivery-worker.ts:165-175 | chunks are non-empty, at most 100 rows, of one group and in creation order |
| EmailSystem.StepRefines | packages/email/src/drizzle-email-queue.ts:51-116 | every email step is a step of the lease protocol, or leaves it alone |
| EmailSystem.CallLands | packages/email/src/drizzle-email-queue.ts:118-300 | what each call leaves of the message it lands on: closed with its provider id, failed or waiting with its error, or given back for the seconds it says |
| EmailSystem.EmailFence | packages/email/src/drizzle-email-queue.ts:243-300 | over every run tokens are unique, and a write lands exactly when the row is unsettled and every later claim was given back |
| EmailSystem.EmailMutualExclusion | packages/email/src/drizzle-email-queue.ts:51-116 | over every run no two workers hold an unexpired lease on one message |
| EmailSystem.StatusOnlyMovesOnward | packages/email/src/drizzle-email-queue.ts:118-127 | over every run a status moves pending to dead to sent or failed, both final |
| EmailSystem.ExhaustedExactlyOnDeath | packages/email/src/email-delivery-worker.ts:326-344 | the exhausted event is committed in the one step that takes a message from pending to dead or failed, also in mixed chunks |
| EmailSystem.ExhaustedOnce | packages/email/src/email-delivery-worker.ts:326-362 | over every run: once for a dead or failed message, never for a pending one, never twice |
| EmailSystem.CallIsRun | packages/email/src/drizzle-email-queue.ts:243-300 | a statement over a chunk leaves the table that settling its rows one by one leaves |
| EmailSystem.CallEventsAreRun | packages/email/src/email-delivery-worker.ts:326-344 | and it announces the same messages |
| EmailSystem.FinishingCalls | packages/email/src/email-delivery-worker.ts:223-273 | whatever the provider answers, the calls of a worker cover its rows once and are steps the system allows |
| EmailResend.KeyNamesItsBatch | packages/email/src/email-delivery-worker.ts:394-401 | over every timely run a key is carried by exactly the messages it was made from |
| EmailResend.KeyedEntries | packages/email/src/email-delivery-worker.ts:236-238 | a chunk that carries a key is every message of the batch its claim could still send |
| EmailResend.StableResend | packages/email/src/email-delivery-worker.ts:223-314 | over every timely run, two sends with a message in common use one key, and the later carries exactly the earlier's messages that are still pending or dead within the window |
| EmailResend.SameBatchSameIdempotencyKey | packages/email/src/email-delivery-worker.ts:403-408 | the idempotency key repeats exactly when no message dropped out |
| EmailLateKey.LateKeyIsHarmless | packages/email/src/email-delivery-worker.ts:275-293 | after any timely run, for a key write that lands, however late: messages stay under one key exactly when no row carries a key other than the one written, and each resend carries exactly what was left of the earlier sends exactly when no entry had dropped out at a later claim that sent under that key |
| EmailLateKey.LateKeyBreaksResend | packages/email/src/email-delivery-worker.ts:275-293 | a run in which a late worker sends a message under a second key |
| TypeScan.FirstClose | apps/api/scripts/type-text.ts:20-41 | the first place where depth returns to zero outside quotes, reading one character at a time |
| TypeScan.CharacterClasses | apps/api/scripts/type-text.ts:1-3 | three quotes, and four brackets with their own closing ones |
| TypeScan.StringEnd | apps/api/scripts/type-text.ts:5-14 | finds the closing quote, escapes skipped, or runs past the end |
| TypeScan.MatchingClose | apps/api/scripts/type-text.ts:20-41 | finds the first index where depth returns to zero, ignoring quoted text and arrow heads, and fails exactly when there is none |
| TypeScan.PiecesDivide | apps/api/scripts/type-text.ts:43-70 | the pieces, joined by the separator, are the text, and no separator starts inside a piece |
| TypeScan.DivisionIsUnique | apps/api/scripts/type-text.ts:43-70 | only one list of pieces has that property, so splitting undoes joining |
| TypeScan.SplitTopLevel | apps/api/scripts/type-text.ts:43-70 | returns those pieces trimmed, in order, without empty ones, and fails exactly when a bracket is left open |
| TypeScan.BracketCloses | apps/api/scripts/type-text.ts:16-41 | a bracket around balanced text closes at its own closing bracket |
| TypeRewrite.DropsExactlyUndefined | apps/api/scripts/type-text.ts:80-87 | what is left of an optional union is its members other than undefined, in order, unless every member is undefined |
| TypeText.SplitWeight | apps/api/scripts/type-text.ts:43-70 | no part has more non-space characters than the text: the measure under which the printer terminates on every text |
| TypeText.TailWeight | apps/api/scripts/type-text.ts:126-133 | the parts after the first, rejoined, have fewer |
| TypeText.PrintAtom | apps/api/scripts/type-text.ts:97-124 | the loop prints each group canonically and copies the rest, and fails exactly when some bracket is open |
| TypeRewrite.RejoiningLengthens | apps/api/scripts/type-text.ts:72-87 | plain length is no measure: the union of three or more members under a two-character optional key is printed from a text longer than the whole member |
| TypeCanon.SimilarDeclaration | apps/api/scripts/type-text.ts:141-155 | texts that differ only inside groups that print the same have one canonical form |
| TypeCanon.IgnoredAtAnyDepth | apps/api/scripts/type-text.ts:89-155 | a difference some group ignores is ignored at any depth of any declaration |
| TypeCanon.SortForgetsOrder | apps/api/scripts/type-text.ts:90 | sorting forgets the order |
| TypeStable.SortIsAlphabetical | apps/api/scripts/type-text.ts:89-90 | sorting puts the same texts in order of their characters |
| TypeCanon.ObjectForgetsOrder | apps/api/scripts/type-text.ts:89-90 | an object prints the same for any order of its members |
| TypeRewrite.MemberOrderIgnored | apps/api/scripts/type-text.ts:72-155 | permuting object members at any depth, however spaced and with or without a trailing separator, leaves the canonical declaration unchanged |
| TypeCanon.SplitJoined | apps/api/scripts/type-text.ts:43-70 | joining parts, with or without spaces, and splitting again gives them back |
| TypeRewrite.RewritesIgnored | apps/api/scripts/type-text.ts:72-155 | a declaration is unchanged by permuting the operands a union is read as, what stands between its top-level bars, at any type position that is not conditional (alias, value, optional value, argument, parameter, function result), at any depth, or an object, or by writing implied undefined |
| TypeRewrite.ReorderedUnion | apps/api/scripts/type-text.ts:135-138 | members in another order are such a permuted union |
| TypeRewrite.ReorderedResult | apps/api/scripts/type-text.ts:129-133 | so is a function whose result is one |
| TypeRewrite.AliasOrderIgnored | apps/api/scripts/type-text.ts:141-147 | a top-level alias of a permuted union has the same canonical declaration |
| TypeRewrite.ImpliedUndefinedIgnored | apps/api/scripts/type-text.ts:72-87 | writing undefined anywhere in the union of an optional member that has another member, at any depth, leaves the canonical declaration unchanged |
| TypeShown.UnionsAgree | apps/api/scripts/type-text.ts:135-138 | two unions print the same exactly when their operands print the same in some order |
| TypeShown.ShownAtAnyDepth | apps/api/scripts/type-text.ts:72-155 | well-formed declarations that differ inside one bracket group, at any depth, have one canonical form exactly when that group prints the same |
| TypeHead.HeadShows | apps/api/scripts/type-text.ts:135-138 | behind a head such as `v is`, a permuted union prints the same exactly when the first operand prints the same |
| TypeHead.HeadShowsAtTop | apps/api/scripts/type-text.ts:72-78 | so for the canonical declaration, when such a union is the type of a declared name or the result of a declared function |
| TypeHead.HeadShowsAtAnyDepth | apps/api/scripts/type-text.ts:89-155 | and when it is a part of a bracket group (mapped type names, default argument) at any depth |
| TypeHead.TypePredicateOrderShows | apps/api/scripts/type-text.ts:126-139 | a type predicate over two types, as the result of a declared function, has a different canonical declaration in the other order |
| TypeStable.StableType | apps/api/scripts/type-text.ts:126-139 | a type whose groups print stably prints as a type that prints as itself, made of its own words |
| TypeFixpoint.StableMemberText | apps/api/scripts/type-text.ts:72-87 | so does a member, also a conditional type under an optional key |
| TypeFixpoint.TidyGroupsSettle | apps/api/scripts/type-text.ts:89-124 | so does every bracket group, from the inside out |
| TypeFixpoint.CanonicalIsIdempotent | apps/api/scripts/type-text.ts:141-155 | the canonical form of a well-formed declaration is its own canonical form |
| TypeWhole.WholeType | apps/api/scripts/type-text.ts:126-139 | text in which every top-level operator has its operands, and `extends` does not stand alone, has the shape of a type |
| TypeWhole.LeftOverWhole | apps/api/scripts/type-text.ts:80-87 | leaving out implied undefined keeps that shape, also inside a conditional type |
| TypeSyntax.RenderedIsWellFormed | apps/api/scripts/type-text.ts:141-155 | every declaration rendered from a syntax tree of objects, unions, intersections, functions, conditional types, generics with bounds and default arguments, and quoted texts is well formed |
| TypeSyntax.RenderedIsIdempotent | apps/api/scripts/type-text.ts:141-155 | so its canonical form exists and is its own canonical form |
| TypeSyntax.NameIsLegal | apps/api/scripts/type-text.ts:126-127 | in those trees every name is allowed but `extends` itself, whatever letters it contains |
| TypeSyntax.DefaultIsLegal | apps/api/scripts/type-text.ts:89-90 | and so is a default argument |
| TypeSyntax.QuotedIsLegal | apps/api/scripts/type-text.ts:5-14 | and so is a quoted text without its quote or a backslash; others where the quote closes at the end |

## Left out

- Spans, logging, error capture, SQL text and query builders: only the row effect of each statement is modelled.
- Failed queries and thrown errors of the repository and the queue: a step that fails changes nothing; its worker is then one that never acts again, except in `OutboxRelay.EachBounded`, which models rejections.
- Retention: sweeps that delete delivered, sent or failed rows. Ids are never reused, so an absent row behaves like a settled one.
- The 32-bit range of `attempts`, and sub-millisecond differences between stored creation times and the dates the workers sort by.
- A retry delay that is not a number is taken to make the failing statement fail; the webhook worker, which shares the schedule, is not part of this model.
- Message text: `lastError` contents, truncation, hashing and scrubbing; the rendered entries, which are a fixed function of the message.
- Suppression of email rows by their own idempotency key on enqueue, and locale handling.
- The email worker's poll timer and its `draining` and `stopping` flags: `EmailWorker.DrainOnce` reads `stopping` before each chunk from a parameter.
- `OutboxRelay.EachBounded` runs its lanes as a simulation: which lane is free first is decided by the given durations, not by a scheduler.
- Handler timeouts and interrupts inside one record's turn: their outcomes are inputs of `OutboxRelay.Relay.Settle`, and a turn is assumed to end within the handler budget.
- Overlapping calls of `start` and `stop`: the lifecycle is serial.
- The callbacks of the listener (`onNotification`, `onReconnect`): a wake of the dispatcher may come at any time, so none is tied to a step of `PgListener`.
- Double rounding: `Jitter` keeps overflow, Infinity and NaN next to exact reals.
- White-space collapsing and the local import specifiers at the head of `canonicalDeclaration`: the printer starts from the text after both replacements.
- Sorting of printed parts compares characters as Dafny orders them; texts with surrogate pairs may sort differently in the original.
- Syntax trees: lists between braces are separated by `;` as in object types; comma lists there (imports, enums) are covered by `TypeFixpoint.CanonicalIsIdempotent` as text, not rendered.
- TypeFixpoint.CanonicalIsIdempotent: well-formed means balanced, no operand missing, `>` outside brackets only in `=>`, `=` outside brackets only in `=>`, before a default or as the one ` = ` of an alias, `extends` standing alone only in conditional types, and operands around the colons inside a value; `TypeSyntax.RenderedIsWellFormed` shows that rendered declarations are such text.
