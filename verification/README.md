# Order, delivery, payment and archival protocols: a Dafny model

The service keeps orders, deliveries, payments, restaurant balances and agent presence in one
PostgreSQL database per region, moves prior years to a second one, and uses Redis for a lock and for
the agents' presence. Its guarantees come from how a handful of protocols use row locks, unique keys,
foreign keys, statuses and compare-and-act scripts. This project models those protocols and proves
what they keep over every run.

| files | what they model |
|---|---|
| `ArchivalTables`, `ArchivalBatches` | cold archival: the tables, the statements, and what one batch of either pass does |
| `ArchivalProtocol`, `ArchivalTheorems` | any number of workers interleaved batch by batch, launched and killed anywhere, over any number of years; what every run keeps |
| `ArchivalRuns`, `ArchivalYears` | runs built step by step; the exact condition on a budget under which no row is lost |
| `ArchivalSlots`, `ArchivalRefunds`, `ArchivalRejections`, `ArchivalLimits` | the exact condition on the data under which no batch is rejected, and data that archival never gets through |
| `ArchivalCopies`, `ArchivalUpdates` | what the archive holds of a moved row; what becomes of a row that is updated while it is being moved |
| `ArchivalWorker` | one run as the program it is |
| `ArchivalLock` | the per-region lock and its keep-alive |
| `FulfilmentModel`, `FulfilmentInvariant`, `FulfilmentTheorems`, `FulfilmentOutcomes`, `FulfilmentPresence`, `FulfilmentService`, `Presence` | orders, deliveries, reassignment chains, payment sessions, webhooks and the presence sets as one state machine; its invariant and theorems; what each call promises its caller; the service methods statement by statement, over a valid region; the candidate scan |
| `Ledger` | settlement and payouts as interleaved database transactions with row locks and unique keys |
| `Outbox` | overlapping drains of the transactional outbox |
| `Pagination`, `Routing` | keyset pagination; listings routed between the hot and the archive database |
| `KashierSignature` | the canonical string of a signed webhook |
| `Prelude`, `Sorting` | options, results, "first n by id", a stable sort |

Where the program changes state step by step, a class holds that state and each method is proved
against a function of the old state; what matters is then proved about runs of those functions. Where
several processes share the state, it is a state machine whose steps are the committed statements, and
a theorem about a "run" is about every finite sequence of steps from the initial state.

## Hypotheses

- Archival: the clock does not go back, and each single run's budget ends in the calendar year the run
  was launched in (`InOneYear`, which can be checked before the run). The cutoff is computed again by
  every table pass, so this is needed: `ArchivalYears.BudgetIsSafeIff` proves that it holds exactly when
  no history of runs so launched loses a row. Histories cross years freely.
- Archival: a copied row passes through JavaScript, where a timestamp is a `Date` of whole milliseconds
  (`src/lib/knex/knex.ts:12`) while the columns hold microseconds, so the archive holds the row with every
  timestamp cut. `ArchivalCopies.MovedRowIsUnchangedIff` and `NeverAltersIff` give the exact condition
  under which nothing is lost by that; eligibility, foreign keys and the year of a row never change
  (`ArchivedRowKeepsItsYear`). The driver writes a `Date` as the UTC time it was read as, which holds where
  the process runs in UTC (the driver is not part of this model), and JSON documents, which the services
  wrote with `JSON.stringify`, come back the same.
- Archival: other writers keep the schema's constraints, add no row to and take none from the families of
  years that are over, leave the foreign keys and the deciding timestamps there alone, give a new delivery a
  higher id than the one it replaces, and never reuse an id. They may update the other columns of a past-year
  row as long as no worker has taken it (`ArchivalUpdates.LastVersionIsKept`); `UpdateIsKeptIff` shows that
  just those updates are safe. A history may begin with any archive that another one left
  (`ArchivalTheorems.EveryMomentIsAStart`), the empty one included.
- Archival: the statements are judged by foreign keys and by the primary key only. The archive also has
  unique keys on `orders.public_id`, `payment_sessions.provider_session_id`,
  `transactions.idempotency_key`, `payment_webhook_events (provider_id, provider_event_id)` and
  `agent_earnings.delivery_id`, and the insert ignores conflicts on `id` alone. A row that reaches hot a
  second time under a new id, such as a webhook event replayed after its first row was archived, is
  therefore outside the model.
- The comment at `src/lib/jobs/archival.worker.ts:153-157` says every self-reference points to a lower
  id. The code writes the opposite for transactions (`src/app/payment/repository/transaction.repo.ts:230-239`):
  the earlier charge names the later refund. The model follows the code. Number the transactions due in
  id order and cut them into batches from below (pass 1) and from above (pass 2): archival of a year is
  never rejected by a foreign key exactly when every charge shares both its batches with its later refund,
  a pair that is partly archived needing only the second (`ArchivalRejections.NeverRejectsIff`, about
  workers launched in that year). Otherwise no run of that
  year completes (`CompletedShowsSlots`); `ArchivalLimits.LateRefundBlocksArchival` gives such data for
  every batch size.
- Orders, deliveries, payments: each service call is one atomic step, because its checks ("no active
  delivery", "no open session") are not locked.
- Presence: Redis writes succeed and no agent calls `online` while holding an active delivery.
  `FulfilmentPresence.LogInIsSafeIff` and `TwoTasksAreReachable` show that the code needs it.
- Ledger: commission rates lie between 0 and 10000 basis points where non-negativity is claimed.
- Keyset walk: the rows do not change during the walk.
- Routed reads: the two databases are separated at the start of the year, which
  `Routing.CompletedRunSeparates` derives from a completed archival run.

## Model

| member | source | states |
|---|---|---|
| ArchivalTheorems.NoRowIsEverLost | src/lib/jobs/archival.worker.ts:114-146 | any number of workers, interleaved and killed anywhere, over any number of years: from the moment a row is of a past year it is in hot with unchanged content or in the archive as its copy, timestamps cut to whole milliseconds, and the archive never loses or alters a row it has |
| ArchivalYears.BudgetIsSafeIff | src/lib/jobs/archival.worker.ts:64-77 | nothing is lost in any history of runs launched at a time with a budget iff the year of the launch is still the year just before the deadline; otherwise one nightly run deletes a row it never copied |
| ArchivalCopies.MovedRowIsUnchangedIff | src/lib/jobs/archival.worker.ts:116-128 | whatever happened in between, a row that left hot is in the archive as its copy, and is there unchanged iff all its timestamps were whole milliseconds |
| ArchivalCopies.NeverAltersIff | src/lib/knex/knex.ts:12 | on data that archival gets through, no history alters any row due iff all their timestamps are whole milliseconds |
| ArchivalCopies.MicrosecondsAreLost | src/migrations/20260418000110_create_payment_webhook_events.ts:12 | a region with one event received at no whole millisecond is a legal start, and some history from it ends with that timestamp in neither database |
| ArchivalCopies.ArchivedIsSameIff | src/lib/knex/knex.ts:12 | a copy is less than a millisecond earlier in every timestamp, a whole number of milliseconds there, and otherwise the row; it is the row itself iff there is nothing to cut, and copying a copy changes nothing |
| ArchivalCopies.ArchivedRowKeepsItsYear | src/lib/jobs/archival.worker.ts:64-67 | every archived row is eligible in the archive for just the cutoffs for which the row it was copied from was |
| ArchivalUpdates.UpdateIsKeptIff | src/lib/jobs/archival.worker.ts:125-132 | at every moment of every run of the year, on data that archival gets through: an update of a row due, visible in a copy, is lost by nothing that may follow iff the row is neither in the archive nor in a batch under way |
| ArchivalUpdates.LastVersionIsKept | src/lib/jobs/archival.worker.ts:114-146 | over any years, runs and kills and any number of updates of rows not yet taken, the last version of every past-year row is in hot, or its copy in the archive |
| ArchivalUpdates.UpdateKeeps | src/lib/jobs/archival.worker.ts:116-121 | such an update keeps the invariant of all workers, with the new version in the place of the old |
| ArchivalTheorems.EveryMomentIsAStart | src/lib/jobs/archival.worker.ts:206-221 | what a history may start from, a row in both databases being in the archive as its copy, is what every history leaves, at any moment, killed or not |
| ArchivalTheorems.OnlyArchivedRowsAreDeleted | src/lib/jobs/archival.worker.ts:222-230 | a delete statement only removes rows whose copies are in the archive, and a worker whose budget ran out in pass 1 never reaches one |
| ArchivalRejections.NeverRejectsIff | src/lib/jobs/archival.worker.ts:114-146 | no foreign key rejects a batch in any run of a year's workers iff in the initial data no refund falls into a later pass 1 batch than its charge, unless one of the two is archived already, and none into an earlier pass 2 batch |
| ArchivalRejections.NoBatchIsRejected | src/lib/jobs/archival.worker.ts:125-132 | on such data every pending statement of every worker gets past the foreign keys, at every moment |
| ArchivalRejections.CompletedShowsSlots | src/lib/jobs/archival.worker.ts:206-245 | a run that completes shows that the data were such: on others no run of that year ever completes |
| ArchivalRejections.LateCopyBlocksTheYear | src/app/payment/repository/transaction.repo.ts:230-239 | one charge copied a batch before its refund stops the year in every run: no transaction from its batch on is ever archived, no worker deletes anything or completes, every row stays in hot |
| ArchivalRefunds.OlderChargeSharesSlots | src/app/payment/repository/transaction.repo.ts:230-239 | as a refund is later than its charge, being in time for either pass means being in the same batch |
| ArchivalTheorems.BatchVerdicts | src/lib/jobs/archival.worker.ts:38-55 | foreign keys of both databases hold at every moment of every run; a pending batch gets past them iff it separates no charge from its refund, and always for the other six tables |
| ArchivalBatches.InsertVerdict | src/lib/jobs/archival.worker.ts:125-132 | the archive's foreign keys accept a pass 1 batch iff every refund link in it lands in the batch or in the archive |
| ArchivalBatches.DeleteVerdict | src/lib/jobs/archival.worker.ts:180-188 | hot's foreign keys accept a pass 2 batch iff it leaves no charge whose refund it deletes; cascades remove nothing beyond the selected ids |
| ArchivalTheorems.CompletedRunMovesEverything | src/lib/jobs/archival.worker.ts:206-245 | a run that finishes inside its budget, after any history over any years, leaves no row of the years before its own in hot (no order or event created before the year, nothing of such an order) and the copies of all of them in the archive; while its year lasts the archive is exactly the old one plus the copies of every past-year row |
| ArchivalTheorems.Convergence | src/lib/jobs/archival.worker.ts:96-146 | two histories over any years that start alike and end in a completed run of the same year end in the same two databases without other writers, and in the same archive beside them while the year of the start lasts |
| ArchivalTheorems.CurrentYearUntouched | src/lib/jobs/archival.worker.ts:23-33 | workers never touch or add a row that has never been of a past year |
| ArchivalProtocol.EveryStepKeeps | src/lib/jobs/archival.worker.ts:100-204 | the inductive invariant of all workers, each with its own year, survives every step of any of them, kills, other writers and the turn of the year |
| ArchivalTables.FamiliesMoveTogether | src/lib/jobs/archival.worker.ts:17-33 | eligibility is closed under foreign keys in both directions, so a family is eligible as a whole |
| ArchivalTables.ParentsComeFirst | src/lib/jobs/archival.worker.ts:38-46 | every foreign key points to a table earlier in the pass 1 order, or to the table itself |
| ArchivalTables.ForeignKeysAre | src/migrations/20260418000090_create_agent_earnings.ts:15-16 | the foreign keys hold iff the order that items, transactions, sessions, deliveries and earnings name exists, the transaction or delivery that one of its own table names, and the delivery that an earning names |
| ArchivalTables.InsertAcceptedIff | src/lib/jobs/archival.worker.ts:125-132 | an insert is accepted iff the foreign keys hold of the archive with it; rows already there stay as they are, the others become copies |
| ArchivalTables.DeleteAcceptedIff | src/migrations/20260418000030_create_order_items.ts:17 | a delete takes the named rows and the items of the orders among them, and is accepted iff the foreign keys hold of what is left |
| ArchivalTables.NextRowsAreFirst | src/lib/jobs/archival.worker.ts:116-121 | a selected insert batch is the eligible rows of lowest id past the cursor, none skipped, at most a batch of them, and all of them if it is shorter |
| ArchivalTables.NextIdsAreLast | src/lib/jobs/archival.worker.ts:172-176 | a selected delete batch is the eligible ids that are highest, at most a batch of them, and all of them if it is shorter |
| ArchivalWorker.Region.InsertNextBatch | src/lib/jobs/archival.worker.ts:116-135 | one pass 1 iteration archives everything up to the new cursor, adds no more rows than it counts and, once it has committed, renews the lock when a third of its time to live has passed; only transactions can be rejected, and only if a refund is not in its charge's batches |
| ArchivalWorker.Region.RunInsertPass | src/lib/jobs/archival.worker.ts:100-149 | unless the budget ran out, the table is fully archived and the count is the number of its eligible rows; if it did, the count is at most the eligible rows that are archived and at least what the archive gained; the loop ends |
| ArchivalWorker.Region.RunDeletePass | src/lib/jobs/archival.worker.ts:158-204 | only archived eligible rows leave hot, the count is exactly what left, and inside the budget none is left |
| ArchivalWorker.Region.RunArchivalOnce | src/lib/jobs/archival.worker.ts:206-245 | with a budget inside one year: every row is still in hot or archived as its copy whatever happens; `deleted` names tables of the pass 2 order and counts exactly what left hot of each, `totalMoved` is all that left; `deleted` is empty unless pass 1 was completed, and `inserted` then counts every table's eligible rows, in time both have seven entries and everything eligible has moved; otherwise `inserted` counts, in the pass 1 order, at most what is archived of each table and in all at least what the archive gained; rejected only if a refund is not in its charge's batches; without the lock nothing happens, and it is given back |
| ArchivalWorker.Region.TakeLock | src/lib/jobs/archival.worker.ts:206-218 | the lease, and the keep-alive's time to live, are the run's minutes and five more; none is taken while a live one exists |
| ArchivalWorker.Region.Breathe | src/lib/jobs/archival.worker.ts:89-93 | after a batch the clock moves on, and the lock is renewed iff the batch committed and a third of the time to live has passed since the last renewal |
| ArchivalLimits.LateRefundIsAStart | src/app/payment/repository/transaction.repo.ts:230-239 | a region holding one order whose first transaction is refunded a whole batch later, with an empty archive, is a legal start for every batch size |
| ArchivalLimits.LateRefundBlocksArchival | src/app/payment/repository/transaction.repo.ts:230-239 | for every batch size there are legal data with which, in every run of that year, no transaction is ever archived, nothing is deleted and no worker completes |
| ArchivalLock.RedisLock.Acquire | src/lib/jobs/archival-lock.ts:26-39 | succeeds exactly when no live lease exists, and then leases for the time to live; otherwise nothing changes |
| ArchivalLock.RedisLock.Renew | src/lib/jobs/archival-lock.ts:44-65 | extends the lease by the time to live exactly when the token holds it, and else changes nothing |
| ArchivalLock.RedisLock.Release | src/lib/jobs/archival-lock.ts:69-83 | deletes the key exactly when the token holds it, and else changes nothing |
| ArchivalLock.LockKeepAlive.MaybeRenew | src/lib/jobs/archival.worker.ts:79-94 | renews once a third of the time to live has passed, and records that it did whatever the answer |
| ArchivalLock.OnlyTheHolderTouchesItsLock | src/lib/jobs/archival-lock.ts:41-50 | no other token's acquire, renew or release alters a live lease |
| ArchivalLock.LeaseFollowsKeepAlive | src/lib/jobs/archival.worker.ts:89-93 | while calls are timely the key is the running run's, expiring one time to live after its last renewal |
| ArchivalLock.MutualExclusion | src/lib/jobs/archival.worker.ts:209-233 | if calls are never further apart than the safe gap, a run holds the lock throughout and no second one starts |
| ArchivalLock.StopFreesTheLock | src/lib/jobs/archival.worker.ts:231-233 | a run that stops lets the next one in at once; after a kill the next one is let in iff a time to live has passed since the last renewal |
| ArchivalLock.ExclusiveIff | src/lib/jobs/archival.worker.ts:87-90 | two runs are never in progress at once iff calls are at most `ttl - floor((ttl - 1) / 3) - 1` apart, which is two thirds of the time to live for the code's multiples of three |
| FulfilmentInvariant.EveryCallKeeps | src/app/delivery/service/delivery.service.ts:74-261 | the joint invariant of orders, deliveries, sessions and charges survives every service call |
| FulfilmentInvariant.UpdateStatusKeeps | src/app/order/service/order.service.ts:557-635 | so does a status change with the cancellation of its delivery |
| FulfilmentInvariant.OwnMoves | src/app/order/service/order.service.ts:660-690 | an actor of this call is never the agent or the system, which bounds the statuses it can leave and write |
| FulfilmentInvariant.NewDeliveryKeepsChains | src/app/delivery/repository/delivery.repo.ts:79-100 | a new delivery that starts or continues the newest end of an order's chain keeps the chains single and within the maximum |
| FulfilmentTheorems.OrderFollowsItsDelivery | src/app/delivery/service/delivery.service.ts:220-225 | in every reachable state an order with an active delivery is PICKED iff the delivery is, and ASSIGNED iff it is not |
| FulfilmentTheorems.StatusWritesFollowTheTable | src/app/order/service/order-status.service.ts:15-41 | every status write of every service is an edge of the table, or a capture's PENDING_PAYMENT or CANCELLED to PLACED, or a reassignment's PICKED to ASSIGNED; any other call leaves the whole order row as it was; placement yields PENDING_PAYMENT, PLACED or, without stock, CANCELLED |
| FulfilmentTheorems.EdgesAre | src/app/order/service/order-status.service.ts:15-41 | the table's edges lead from PLACED to DELIVERED one step at a time, to REJECTED from PLACED and to CANCELLED from every status before PICKED |
| FulfilmentTheorems.OwnEdgesAre | src/app/order/service/order-status.service.ts:15-41 | the system may only expire an unpaid order and assign a ready one, the agent only pick and deliver |
| FulfilmentTheorems.DeliveriesMoveLegally | src/app/delivery/service/delivery.service.ts:60-64 | in every run a delivery never disappears and keeps its order, agent and predecessor; its status moves by its agent's steps, to REASSIGNED by a reassignment or log-out, or to CANCELLED with its order before it is picked |
| FulfilmentTheorems.TerminalForever | src/app/order/service/order-status.service.ts:15-41 | DELIVERED and REJECTED are final |
| FulfilmentTheorems.LogOutMoves | src/app/agent/service/presence.service.ts:37-61 | logging out never sets a picked order back: no order row changes |
| FulfilmentTheorems.OneChainPerOrder | src/app/delivery/service/delivery.service.ts:147-171 | all deliveries of an order form one chain in id order, the count read off the newest is their number, and they are at most the maximum, or one if that is less |
| FulfilmentTheorems.OneCurrentDelivery | src/app/delivery/service/delivery.service.ts:60-64 | next to an active or delivered delivery every other delivery of the order is older and was rejected or reassigned |
| FulfilmentTheorems.SingleCapture | src/app/payment/service/kashier-webhook.service.ts:194-271 | at most one open session, only while awaiting payment or cancelled; at most one succeeded charge, equal to the total, and a CAPTURED session iff there is one, never two; `order.placed` at most once, for an online order iff it was charged; no online order proceeds uncharged |
| FulfilmentTheorems.ReplayChangesNothing | src/app/payment/service/kashier-webhook.service.ts:94-107 | a webhook acknowledged once changes nothing when delivered again, however much later |
| FulfilmentService.Region.CountReassignmentChain | src/app/delivery/repository/delivery.repo.ts:219-236 | the loop ends and computes the chain length |
| FulfilmentOutcomes.ChainIsEveryAttempt | src/app/delivery/service/delivery.service.ts:147-153 | the chain length read off an active delivery is the number of deliveries the order ever had |
| FulfilmentOutcomes.PlacedOrder | src/app/order/service/order.service.ts:181-303 | a placement adds one order that has no delivery, open session or charge; refused means out of stock and CANCELLED, for cash after `order.placed` went out |
| FulfilmentOutcomes.AllowedIs | src/app/order/service/order-status.service.ts:15-41 | table, role and window together allow exactly: customers cancel their own unpaid or just placed order, staff and admins move it up to READY or cancel it, only an admin takes it from an agent |
| FulfilmentOutcomes.UpdatedStatus | src/app/order/service/order.service.ts:557-635 | accepted iff so allowed; then only that status is written, nobody is delivering the order, and the delivery it had is cancelled and its agent free; else nothing changes and the error says which: no such order, no business with it, the window over, or no such transition |
| FulfilmentOutcomes.CancelledDelivery | src/app/delivery/repository/delivery.repo.ts:195-205 | ending all active deliveries and freeing the first one's agent leaves none active and every one of their agents free |
| FulfilmentOutcomes.CandidateIsNearest | src/app/delivery/service/assignment.service.ts:41-82 | the candidate is the nearest agent not busy, failing that the nearest idle one by the rows; none means that nobody is free |
| FulfilmentOutcomes.AssignedDelivery | src/app/delivery/service/delivery.service.ts:74-114 | done gives a READY order its first and only delivery, to the agent asked for if idle, else to the nearest; each refusal names its cause, and the one for an existing delivery never happens |
| FulfilmentOutcomes.ReassignedDelivery | src/app/delivery/service/delivery.service.ts:140-176 | refused for good once the order has had the maximum of deliveries; else the old one is over and its agent free, and either exactly one new active delivery names it or nobody is free |
| FulfilmentOutcomes.UpdatedDelivery | src/app/delivery/service/delivery.service.ts:178-261 | accepted iff the delivery is the agent's and the step one from ASSIGNED to ACCEPTED or REJECTED, to PICKED, to DELIVERED; the order moves with it, and a rejection is replaced as above; else nothing changes and the error says whether it is unknown, another agent's or no step |
| FulfilmentOutcomes.StartedPayment | src/app/payment/service/payment.service.ts:52-116 | accepted iff the caller's order awaits payment; it then has exactly one open session, for its total, the old one if there was one and else a new one, INITIALIZED; else nothing changes, and the error says whether the order is unknown or not awaiting payment |
| FulfilmentOutcomes.NotifiedPayment | src/app/payment/service/kashier-webhook.service.ts:57-162 | a webhook settles an open payment of its order: its session becomes CAPTURED and the order is placed and announced for the first time if successful, and FAILED if not; or it leaves only its event recorded, under transaction, event and status; refused iff the transaction id is in the books already, and then nothing was kept |
| FulfilmentOutcomes.LoggedOut | src/app/agent/service/presence.service.ts:37-61 | refused only while carrying a picked order; afterwards the agent is in no presence set and the order it was to fetch is reassigned |
| FulfilmentOutcomes.LoggedIn | src/app/agent/service/presence.service.ts:26-81 | after a log-in the agent is online, in the geo set and not busy; a ping of an online agent puts it into the geo set, any other is refused; nothing else changes |
| FulfilmentService.Region.TryAssign | src/app/delivery/service/assignment.service.ts:41-82 | the over-fetching scan and the fallback give a new delivery to the candidate, or change nothing |
| FulfilmentService.Region.Reassign | src/app/delivery/service/delivery.service.ts:140-176 | the statements, with the counting loop, keep the region valid and meet the outcome above |
| FulfilmentService.Region.UpdateDelivery | src/app/delivery/service/delivery.service.ts:178-261 | the statements, with the count taken after the status is written, keep the region valid and meet the outcome above |
| FulfilmentService.Region.Process | src/app/payment/service/kashier-webhook.service.ts:57-162 | record, handle and full rollback on a repeated charge key keep the region valid and meet the outcome above |
| FulfilmentPresence.BusySetIsExact | src/lib/presence/presence-store.ts:38-92 | in every run without a log-in during a delivery, an online agent is in the busy set iff it has an active delivery, and no agent ever has two |
| FulfilmentPresence.CandidateIsIdle | src/app/delivery/service/assignment.service.ts:48-72 | the chosen agent has no active delivery, whichever scan it came from |
| FulfilmentPresence.LogInIsSafeIff | src/app/agent/service/presence.service.ts:26-35 | a log-in keeps the presence invariant iff the agent has no active delivery |
| FulfilmentPresence.LoggingInMidDeliveryDoublesUp | src/lib/presence/presence-store.ts:52-54 | otherwise the next order nearby gives the agent a second active delivery |
| FulfilmentPresence.TwoTasksAreReachable | src/lib/presence/presence-store.ts:52-54 | such a state is reached from empty tables, for every agent and maximum, by calls that the services all accept |
| FulfilmentPresence.CancelActiveKeepsPresence | src/app/order/service/order.service.ts:612-620 | a cancelled order's delivery ends and its one agent is freed |
| Presence.OverFetchIsExact | src/lib/presence/presence-store.ts:112-128 | fetching `limit + busy` and dropping the busy gives the first `limit` free agents of all in the radius |
| Presence.FindNearbyOnlineAgents | src/lib/presence/presence-store.ts:105-140 | the loop returns exactly those |
| Ledger.LedgerConservation | src/app/delivery/repository/restaurant-balance.repo.ts:17-44 | in any interleaving each balance is, over exactly the transactions that committed, each taken once, the subtotals less the posted commissions, less the payouts; a settlement's entry e satisfies `10000 * e <= subtotal * rate < 10000 * (e + 1)` at the rate it carried, a payout's has its restaurant, key and amount; the agent has the earning of the settlement that took the commission |
| Ledger.BalanceNeverNegative | src/app/finance/service/finance.service.ts:77-84 | and never negative |
| Ledger.CommissionIsAShare | src/app/delivery/service/delivery.service.ts:275-277 | the floored commission lies between 0 and the subtotal |
| Ledger.SettlementIsExactlyOnce | src/app/delivery/service/delivery.service.ts:283-375 | any number of concurrent DELIVERED requests that all read PICKED leave one commission row, one earning and one pair of events, or none; one as soon as any request was answered |
| Ledger.AllOrNothing | src/app/delivery/service/delivery.service.ts:283-395 | a step or a kill leaves of its request either everything (its own entry, that entry's worth on the balance, earning, both events, DELIVERED) or nothing |
| Ledger.EveryStepIsSerial | src/app/delivery/service/delivery.service.ts:283-375 | every interleaved commit does to the books exactly what the request does alone, and is answered alike; a payout that loses the race for its key is the one exception and fails |
| Ledger.PayoutKeyDeductsOnce | src/migrations/20260418000050_create_transactions.ts:28 | a scoped key appears once, whatever amounts or currencies its retries carry |
| Ledger.RetryReturnsTheSameRow | src/app/finance/service/finance.service.ts:71-75 | once a payout has committed, every request of the same restaurant with the same client key that looks it up later gets that row, however low the balance |
| Ledger.PayoutAnswers | src/app/finance/service/finance.service.ts:57-105 | in every run a payout is answered with an entry of its own restaurant, client key and amount, or with that of another payout of the same restaurant under the same client key that went through |
| Ledger.LookupAnswersIff | src/app/finance/service/finance.service.ts:71-84 | it is given an existing row iff a payout of that restaurant under that client key went through, refused iff none did and the balance is below the amount, and else goes on, also for the whole balance |
| Ledger.SettlementHoldsItsRows | src/app/delivery/service/delivery.service.ts:283-306 | while a settlement is under way nobody else writes its delivery's status, and no other settlement works on its order |
| Ledger.NoDeadlock | src/app/finance/service/finance.service.ts:59-71 | locks are taken in one global order: some unfinished transaction can always move, and every move leaves it less to do |
| Ledger.WrittenKeepsBooks | src/app/delivery/service/delivery.service.ts:307-373 | a commit keeps keys distinct and balances, earnings and events in step with the entries |
| Ledger.KeyTextIsInjective | src/app/finance/service/finance.service.ts:57 | two key texts are equal iff the commissions or payouts are the same; restaurant 8 and "2026-05" give "payout:8:2026-05", delivery 17 "commission:17" |
| Ledger.MoneyTables.LockRestaurantBalance | src/app/delivery/repository/restaurant-balance.repo.ts:17-33 | the row exists afterwards and no balance has changed |
| Ledger.MoneyTables.RecordPayout | src/app/finance/service/finance.service.ts:49-105 | run alone: the row under the restaurant's client key; else refused iff the balance is below the amount; else that amount is deducted and posted under this key, and nothing else changes |
| Ledger.MoneyTables.SettleDelivery | src/app/delivery/service/delivery.service.ts:264-375 | run alone: everything once, the commission e with `10000 * e <= subtotal * rate < 10000 * (e + 1)` and `subtotal - e` on the balance; or a rollback on the commission key |
| Outbox.OutboxStore.Drain | src/lib/events/drain-outbox.ts:10-46 | accepted events are marked, refused ones counted, and both counters are right |
| Outbox.DrainOutcome | src/lib/events/outbox.repo.ts:66-84 | what that means for each single event |
| Outbox.DispatchedWasPublished | src/lib/events/outbox.repo.ts:51-62 | a dispatched event was published; every publish is accounted for; overlapping drains hold disjoint batches |
| Outbox.EventsStay | src/lib/events/outbox.repo.ts:38-49 | no committed event disappears or is un-dispatched, its age stays and its attempts only grow |
| Outbox.DrainProgress | src/lib/events/drain-outbox.ts:20-39 | whatever the other drains do, what a drain has left is the end of its batch, and it has sent or missed just the rest |
| Outbox.OldestFirst | src/lib/events/outbox.repo.ts:51-62 | of what is left it tries the oldest event, and never one that is dispatched |
| Outbox.EventAfter | src/lib/events/outbox.repo.ts:66-84 | its commit dispatches what the broker accepted since the claim, adds one attempt to what it refused, and changes no other event |
| Outbox.OthersChangeNoEvent | src/lib/events/drain-outbox.ts:42-46 | claims, publishes and rollbacks change no event, and an insert only adds its own |
| Outbox.FinishIsADrain | src/lib/events/drain-outbox.ts:10-46 | a drain that commits among others has done to the events what the program does alone |
| Outbox.ExactlyOnceWithoutCrashes | src/lib/events/drain-outbox.ts:20-41 | without rollbacks and kills each dispatched event was published exactly once |
| Outbox.DuplicatesAreWaste | src/lib/events/drain-outbox.ts:40-44 | a second publish of an event needs a drain that published it and then did not commit |
| Pagination.CursorRoundTrip | src/lib/http/pagination/cursor-pagination.ts:24-32 | decode after encode is the identity iff the id neither starts with a colon nor contains two in a row |
| Pagination.BareCursor | src/lib/http/pagination/cursor-pagination.ts:28-32 | a cursor without separator is all value, with the id "0" |
| Pagination.PageShows | src/lib/http/pagination/cursor-pagination.ts:34-124 | for any selection, cursor, direction and size: a page holds the first wanted rows past the cursor by column and then id; a row that is missing comes later and the page is full; `hasMore` iff one is missing, and the next cursor is then the last row's id and value, in whole milliseconds for a timestamp |
| Pagination.WalkIsComplete | src/lib/http/pagination/cursor-pagination.ts:45-66 | following `nextCursor` lists every row once in order for every page size iff, under one cursor value, ids follow timestamps; always for columns that are not timestamps |
| Pagination.NextPageIsSmaller | src/lib/http/pagination/cursor-pagination.ts:104-124 | each next cursor leaves strictly fewer rows, so the walk ends on any data |
| Pagination.CursorSelectsTheRest | src/lib/http/pagination/cursor-pagination.ts:53-60 | the cursor of a row selects exactly the rows after it |
| Pagination.PageAt | src/lib/http/pagination/cursor-pagination.ts:104-124 | data, `hasMore` and next cursor of the page at any position |
| Pagination.OneMillisecondCanLoseARow | src/lib/http/pagination/cursor-pagination.ts:119-122 | two orders within one millisecond with ids the other way round: the second is never listed |
| Routing.ApplyFilters | src/lib/http/pagination/cursor-pagination.ts:69-102 | the loop selects exactly the rows that pass every filter, in order |
| Routing.RoutedPageIsOneQuery | src/app/order/service/order.service.ts:466-486 | on a fully bounded range that does not straddle the year, the page is that of one query over both databases, for any cursor |
| Routing.RangeIsClassified | src/app/order/service/order.service.ts:76-101 | taking the first bound of each kind, a range straddles the year iff it starts before it and does not end before it, and is archived iff it ends before it; with one side open it is hot |
| Routing.RestaurantPageShows | src/app/order/repository/order.repo.ts:171-190 | such a page shows orders of either database that are of the branch asked for and that no filter turns away, the first past the cursor in the order asked for; a missing one comes later, the page is full and has a successor |
| Routing.LonePageIsComplete | src/app/order/repository/order.repo.ts:171-190 | without cursor and successor it holds exactly the orders of both databases with that branch that no filter turns away |
| Routing.MergedPageIsOneQuery | src/app/order/service/order.service.ts:495-533 | on a straddling range the merged page has the rows of that one query and no cursor; `hasMore` never promises too much, and is right unless one database has no match and the other more than a page |
| Routing.StraddlingPageShows | src/app/order/service/order.service.ts:495-533 | the merged page shows the first such orders of both databases together, whatever cursor came in |
| Routing.OneSidedRangeReadsHotOnly | src/app/order/service/order.service.ts:76-94 | with a bound missing the page agrees for every page size iff no archived order matches |
| Routing.OpenRangeShowsHot | src/app/order/service/order.service.ts:76-94 | with a bound missing the page shows such orders of hot, and only those |
| Routing.CustomerPageIsOneQuery | src/app/order/service/order.service.ts:390-412 | for every year the routed page is that of one query over both databases |
| Routing.CustomerPageShows | src/app/order/service/order.service.ts:390-412 | it shows the orders of the customer asked for, from the start of the year asked for to before the next, the first past the cursor in the order asked for; a missing one comes later, the page is full and has a successor |
| Routing.CompletedRunSeparates | src/lib/jobs/archival.worker.ts:206-233 | a completed archival run leaves hot with current-year orders and the archive with earlier ones |
| Routing.ArchivedWalkIsComplete | src/lib/http/pagination/cursor-pagination.ts:45-66 | as archived timestamps are whole milliseconds, the keyset walk over archived orders lists every one, for every page size and after any history |
| KashierSignature.CanonicalIgnoresKeyOrder | src/pkg/payments/kashier/kashier.signature.ts:16-22 | the canonical string does not depend on the order of the signature keys |
| KashierSignature.CanonicalIsInjective | src/pkg/payments/kashier/kashier.signature.ts:16-22 | for fixed keys two payloads have the same canonical string iff they agree on every key |
| KashierSignature.DecodeEncode | src/pkg/payments/kashier/kashier.signature.ts:21 | percent-encoding (section 2.1 of RFC 3986) decodes back to the value |
| KashierSignature.EscapeIs | src/pkg/payments/kashier/kashier.signature.ts:18-21 | letters, digits and nine marks stand for themselves; every other byte, a space or a vertical bar among them, becomes a percent sign and two upper-case hex digits |
| KashierSignature.EncodedCharacters | src/pkg/payments/kashier/kashier.signature.ts:21 | an encoded value holds no other character than those and the percent sign |
| KashierSignature.EncodeAppends | src/pkg/payments/kashier/kashier.signature.ts:21 | values are encoded byte by byte |
| KashierSignature.LexIs | src/pkg/payments/kashier/kashier.signature.ts:17 | keys are sorted by the first character that differs, a prefix first |
| KashierSignature.CanonicalIs | src/pkg/payments/kashier/kashier.signature.ts:20-22 | the text is empty for no key, and each next key in that order appends its `&key=value` |

## Left out

- Rows added to the family of a past-year order while archival moves it, such as a refund of it.
- Controllers, routes, validation, RBAC permissions, branch access and JWT: authorization enters only as whether a call resolves to an actor.
- HTTP calls to the core service and to Kashier, RabbitMQ, WebSocket fan-out and logging: outcomes are parameters, best-effort publishing is dropped.
- HMAC itself, the constant-time comparison and the empty-key early return of the signature check.
- The idempotency middleware: it takes no lock, so at-most-once is proved for the payout's own key instead.
- Refunds: requests, refund webhooks and refund totals; they appear only as the self-reference that archival meets.
- The `cod_collection` row of a cash order, its flip at settlement, `orders.commission` and `deliveries.earning_amount`; the agent's earning is an opaque integer, since the source rounds a floating-point product.
- Finer interleavings of delivery, payment-start and webhook calls than one call at a time, such as two assignments that both saw no active delivery.
- Presence when a Redis write fails, the 90-second freshness test and distances: a scan is any list of agents the sets allow, nearest first.
- `itemsCount` and `restaurantName` of a listing, `LIKE` patterns and malformed dates in filters.
- 32-bit overflow of `INT` columns, time zones, unique keys of the archive other than the primary key, and statements that fail for other reasons than a constraint.
- ArchivalWorker.Region.RunArchivalOnce: one worker at a time, and nothing is promised of a budget that reaches into another year (`ArchivalYears.BudgetIsSafeIff` says why); workers that overlap or are killed are in ArchivalProtocol.
- ArchivalLock.LockKeepAlive.MaybeRenew: the due test, the renewal and the update of the field happen at one instant.
- Pagination.WalkIsComplete: rows inserted or deleted between two pages are not modelled.
- Ledger.SettlementIsExactlyOnce: that the delivery row stays DELIVERED is not claimed, since other services may write its status after the commit.
