# Verified models of the Go services

A Dafny project that models the stateful cores of a repository of small Go services and proves
what they keep over whole runs. `dafny verify dfyconfig.toml` checks everything.

Each component has the code's own form (classes with their fields, loops with invariants, pure
functions where the code only computes), a specification function for every operation, and then
runs: sequences of atomic steps by any number of workers, in any order. A step that is not
possible changes nothing, so every sequence of steps is a run. The state after the first `k` steps
is a function `After` of the run, or an entry of its history (`Histories`); every sequence of steps
has a history.

| component | files | source |
|---|---|---|
| order saga with transactional outbox | `OrderDomain`, `RetryBackoff`, `OrderStore`, `OrderDispatch`, `OrderSaga`, `OrderGuarantees`, `OrderOutcomes` | microservice/order |
| causality, vector clock, hybrid clock, grow-only counter | `Causality`, `Vectors`, `VectorClocks`, `HybridClocks`, `GrowOnlyCounter` | distributed-primitives-go/clocks, replication |
| virtual queue and its Redis protocol | `TicketQueue`, `QueueRuns`, `QueueGuarantees`, `Resp` | ttd/internal/queue |
| token bucket with idle sweeper | `RateLimiter` | fintech-gateway-go/internal/ratelimit |
| transfers under ordered locks | `Ledger`, `LedgerRuns`, `LedgerMoney` | fintech-ledger-go/internal/ledger |
| leader election with fencing | `Raft` | distributed-primitives-go/raft |
| LRU+TTL cache, consistent-hash ring | `LruCache`, `HashRing` | fintech-gateway-go/internal |
| usage metering, entitlements | `UsageKeys`, `UsageFlush`, `UsageRuns`, `SubscriptionDomain`, `Entitlements`, `EntitlementRuns`, `EntitlementRaces`, `WebhookRaces` | subscription-core |

`Collections`, `Histories`, `Text`, `Int64` and `Sums` hold what several components share: optional
values, sets and sequences, histories, numerals and separators, Go's string order, wrap-around, sums over maps.

## Where the code and its promises differ

The model follows the code. Each difference has a concrete case and the exact condition.

- A request reads the clock before it takes the lock, so others and the sweeper can overtake it.
  Over all runs in which no request waits longer than some lag, sweeping idle buckets is invisible,
  and the rate is bounded, exactly when the idle time less twice the lag covers one fill time. That
  holds for lags up to 22 seconds unless four fill times overflow an int64 of nanoseconds
  (`RateLimiter.SweepingIsInvisibleIffCovered`, `OvertakenRequestExample`, `OverflowIsNotCovered`).
- A hold can be released up to a millisecond before it expires; over all runs that never happens
  exactly to holds whose expiry is a whole millisecond (`QueueGuarantees.NeverReleasedBeforeIff`,
  `EarlyReleaseExample`).
- A back-off that would come out one nanosecond below an odd cap is rounded up to the cap
  (`RetryBackoff.DelayIsCappedExponential`, `RoundedUpExample`).
- Two accounts can share an idempotency index exactly when one ID followed by a NUL byte starts
  the other (`OrderDomain.IndexCollisions`, `CollidingAccountsExample`).
- A credit is not checked for overflow: under all transfers and schedules balances stay
  non-negative, and money is conserved, exactly when the opening balances sum to an int64
  (`LedgerMoney.SafeIffTotalFits`, `OverflowExample`).
- A feature with a colon is billed to another subject; a usage key reads back as itself exactly
  when subject, feature and period are non-empty and the last two hold no colon
  (`UsageKeys.ParseInvertsKey`, `ColonMovesUsage`).
- A flusher that restarts over durable counters charges everything again, although its comment
  says that a crash never double-bills. Charges stay right exactly for usages not charged at all
  before; with counters that are lost too, exactly for usages charged in full
  (`UsageRuns.FirstRestartKeepsChargesIff`, `DoubleChargeExample`).
- An entitlement fill that straddles a write and its bust stays wrong in the cache, and so does an
  entry whose bust is lost. Otherwise, with no bust pending, a cached entry is true exactly when it
  was true at its fill (`EntitlementRaces.EntryIsTrueIffFillWas`, `StraddlingFillExample`,
  `LostBustExample`).
- A reconciliation that moves a subscription to another customer leaves the former customer's row
  in place; the row that answers for a subject is always current exactly when no written answer
  does that (`EntitlementRuns.IndexesAlwaysAgreeIff`, `FormerCustomerKeepsAccess`).
- A provider's old answer about another subscription than the one asked for can lower that one's
  watermark; no other call can that runs alone (`EntitlementRuns.WatermarksNeverFallIff`,
  `UnaskedAnswerExample`).
- Handlers mark, look and write under separate locks, so two events of one subscription can lower
  its watermark, and a handler that stops in between loses its event for good. Over all
  interleavings a watermark never falls exactly when no worker writes over a newer row that it did
  not look at, and a marked event is written exactly when its handler neither stopped nor refused it
  (`WebhookRaces.WatermarksNeverFallIff`, `EventIsWrittenIff`, `OverlappingHandlersExample`).
- The hybrid clock's physical part is documented as the largest wall reading seen. It is a reading
  exactly when some reading in the causal past is not negative, and its logical part counts
  earlier events exactly when some reading there is positive
  (`HybridClocks.PhysicalIsLargestReading`, `LogicalIsWitnessed`, `NegativeReadingExample`).

## Model

| member | source | states |
|---|---|---|
| `OrderDomain.Validate` | microservice/order/service.go:71-91 | the message is empty exactly for requests that meet all six rules |
| `OrderDomain.FingerprintIdentifiesOrder` | microservice/order/service.go:93-97 | two valid requests have one fingerprint exactly when instrument, side, quantity and price agree, also when the instrument contains the separator |
| `OrderDomain.IndexIdentifiesPair` | microservice/order/domain.go:94 | without NUL in the account IDs the index determines account and key |
| `OrderDomain.IndexCollisions` | microservice/order/domain.go:94 | in general two accounts can collide exactly when one ID and a NUL is an initial part of the other |
| `OrderDomain.CollidingAccountsExample` | microservice/order/domain.go:94 | two concrete accounts and keys with one index |
| `RetryBackoff.Delay` | microservice/order/dispatcher.go:25-40 | the loop computes the doubling with the cap looked up before each doubling |
| `RetryBackoff.DelayIsCappedExponential` | microservice/order/dispatcher.go:25-40 | the delay is the base times a power of two, capped, exactly when that is not one below the cap; then it is the cap |
| `RetryBackoff.RoundedUpExample` | microservice/order/dispatcher.go:30-35 | a cap of 5 over a base of 2 gives 5 where the exponential gives 4 |
| `RetryBackoff.DelayGrowsToCap` | microservice/order/dispatcher.go:25-40 | delays are positive, never shrink with the attempt and never exceed the cap |
| `Text.LessIsFirstDifference` | microservice/order/store.go:136-142 | one string comes before another exactly when they agree up to a place where it ends or has the smaller character |
| `OrderStore.PickDue` | microservice/order/store.go:123-145 | an event is picked exactly when it waits and is available, or is processing under a lease that has run out, and fewer than the limit of such events come before it by time and ID |
| `OrderStore.MemoryStore.Transaction` | microservice/order/store.go:62-81 | a transaction commits what it computed or leaves the store as it was |
| `OrderStore.MemoryStore.ClaimDue` | microservice/order/store.go:119-158 | exactly those events are processing then, each under its own token until the new lease ends, as the copies handed out say; nothing else changes; running out of tokens leaves the rows leased so far and hands out nothing |
| `OrderStore.MemoryStore.Finalize` | microservice/order/store.go:160-177 | under the current lease the change and the delivery commit together; otherwise nothing changes |
| `OrderStore.MemoryStore.Retry` | microservice/order/store.go:179-193 | under the current lease the attempt is counted and the event waits; otherwise nothing changes |
| `OrderStore.MemoryStore.Abandon` | microservice/order/store.go:195-213 | under the current lease the change and the death commit together; otherwise nothing changes |
| `OrderDispatch.OrderService.Place` | microservice/order/service.go:37-69 | invalid, conflicting and replayed requests change nothing; a new one adds order, index and first event |
| `OrderDispatch.Dispatcher.Deliver` | microservice/order/dispatcher.go:83-166 | what a worker with a claimed copy and a remote reply does to the store |
| `OrderDispatch.Dispatcher.HandleRemoteError` | microservice/order/dispatcher.go:181-201 | a fault is retried exactly while transient and within budget, else given up |
| `OrderDispatch.DeliveryIsOneMove` | microservice/order/dispatcher.go:96-201 | under a valid lease every delivery is one move of the order, the event and at most one successor |
| `OrderDispatch.OvertakenDeliveryFails` | microservice/order/store.go:163-166 | without the lease every delivery fails and the store stays |
| `OrderSaga.MoveFits` | microservice/order/dispatcher.go:105-166 | after any delivery the event and its successor fit the order's new status and margin |
| `OrderSaga.InvAlways` | microservice/order/store.go:71-213 | the saga invariant holds after every run of placements, claims and deliveries |
| `OrderGuarantees.StepEffect` | microservice/order/store.go:62-213 | every step of every run does nothing, adds an order, leases an event, or acts on one under its lease |
| `OrderGuarantees.HistoryDictatesOrder` | microservice/order/dispatcher.go:96-201 | in every reachable state status and margin are the ones that the order's event history dictates, and stages open one after the other |
| `OrderGuarantees.AtMostOneOpenEvent` | microservice/order/dispatcher.go:96-201 | an order never has two open events |
| `OrderGuarantees.OneOperationPerKind` | microservice/order/dispatcher.go:101 | all calls of one kind for one order carry one operation ID |
| `OrderGuarantees.ReleaseFollowsRejection` | microservice/order/dispatcher.go:132-147 | a release event exists only after a recorded rejection by the exchange |
| `OrderGuarantees.FaultsLeaveMargin` | microservice/order/dispatcher.go:181-201 | retrying or giving up leaves margin and reservation of every order alone |
| `OrderGuarantees.EventsCloseOnce` | microservice/order/store.go:160-213 | a delivered or dead event never changes again |
| `OrderGuarantees.OnlyLatestHolderActs` | microservice/order/store.go:163-166 | an event is changed only by a worker whose copy is the current row, so under the latest token |
| `OrderGuarantees.TokensAreUnique` | microservice/order/store.go:147-155 | no two claimed copies share a token |
| `OrderGuarantees.AttemptsStayBelowBudget` | microservice/order/dispatcher.go:185-188 | while an event is open its attempts are below the budget |
| `OrderGuarantees.ClaimsTakeLapsedRows` | microservice/order/store.go:128-155 | in every run a claim takes a row exactly when the row waits and is available, or is processing under a lease that has run out; a live lease is never taken |
| `OrderGuarantees.FaultsRetryOrDie` | microservice/order/dispatcher.go:181-201 | a fault counts one attempt and is retried exactly when transient and below the budget; otherwise the event is dead and its order left to reconciliation |
| `OrderGuarantees.RetriedEventsWait` | microservice/order/store.go:179-194 | a retried event rests unchanged until it is claimed at or after its time plus the back-off delay |
| `OrderGuarantees.ActionsLowerBudget` | microservice/order/store.go:160-213 | each accepted Finalize, Retry or Abandon lowers a natural-number budget of its order and nothing raises it |
| `OrderGuarantees.WorkPerOrderIsBounded` | microservice/order/dispatcher.go:181-189 | at most three times MaxAttempts accepted actions ever happen per order |
| `OrderGuarantees.OneOrderPerKey` | microservice/order/store.go:97-107 | there is at most one order per account and key |
| `OrderGuarantees.LookupFindsOwnOrder` | microservice/order/store.go:83-90 | for accounts without NUL a lookup finds an order exactly when account and key are its own |
| `OrderGuarantees.PlaceReplaysOrConflicts` | microservice/order/service.go:37-69 | a taken account and key replays exactly when the four order fields match, else conflicts; no table changes |
| `OrderGuarantees.PlacesIff` | microservice/order/service.go:37-97 | a placement adds the order and its first event exactly when the request meets the six rules and no order has its index |
| `OrderGuarantees.BatchIsClaims` | microservice/order/store.go:146-157 | claiming a batch is claiming its events one by one |
| `OrderGuarantees.BatchHandsOutCopies` | microservice/order/store.go:146-157 | every event of a batch ends up as a worker's copy |
| `OrderOutcomes.AnswersAreRecorded` | microservice/order/dispatcher.go:96-166 | when the gateways give one definitive answer per operation ID, the order of every delivered event says what was answered: reservation, exchange order or reason |
| `OrderOutcomes.StatusAgreesWithGateways` | microservice/order/dispatcher.go:96-201 | reserved margin, rejection, acceptance and compensation are on record exactly when the event of that stage is delivered and the gateway answered so |
| `OrderOutcomes.RunsCanFinish` | microservice/order/dispatcher.go:69-201 | from every moment of every run, whatever the gateways answer from then on, claims and deliveries alone close every event and bring every order to accepted, rejected or reconciliation |
| `VectorClocks.VectorClock.Tick` | distributed-primitives-go/clocks/vector.go:41-43 | one more on the node's own counter |
| `VectorClocks.VectorClock.Merge` | distributed-primitives-go/clocks/vector.go:47-54 | element-wise maximum, then one more on the own counter, also when merged with itself |
| `VectorClocks.Compare` | distributed-primitives-go/clocks/vector.go:67-94 | the loop over both key sets decides domination in both directions |
| `VectorClocks.PastIsReached` | distributed-primitives-go/clocks/vector.go:41-54 | an event is in another's past exactly when the other's vector has reached its number |
| `VectorClocks.CompareDecidesCausality` | distributed-primitives-go/clocks/vector.go:41-94 | for every run: Before exactly for happens-before, After for the reverse, Equal for the same event, Concurrent otherwise |
| `VectorClocks.LiveMergeIsAnEvent` | distributed-primitives-go/clocks/vector.go:47-54 | merging a live clock is receiving that node's latest event |
| `Causality.HappensBeforeIsLeast` | distributed-primitives-go/clocks/vector.go:26-34 | happens-before is the least transitive relation that contains program order and message edges |
| `HybridClocks.HLC.Now` | distributed-primitives-go/clocks/hlc.go:28-38 | the stamp advances strictly whatever the wall clock says |
| `HybridClocks.HLC.Update` | distributed-primitives-go/clocks/hlc.go:41-65 | the stamp ends up above the old one and above the received one |
| `HybridClocks.StampsFollowCausality` | distributed-primitives-go/clocks/hlc.go:28-65 | stamps strictly increase along happens-before, for all wall readings |
| `HybridClocks.PhysicalIsLargestReading` | distributed-primitives-go/clocks/hlc.go:28-65 | the physical part bounds all readings in the causal past and is the largest of them exactly when some reading there is not negative; otherwise it is the initial zero |
| `HybridClocks.LogicalIsWitnessed` | distributed-primitives-go/clocks/hlc.go:28-65 | a logical value k is witnessed by a causal chain of k earlier events with the same physical part exactly when some reading in the causal past is positive; otherwise by one event fewer |
| `HybridClocks.NegativeReadingExample` | distributed-primitives-go/clocks/hlc.go:28-38 | a single negative reading gives stamp (0, 1), and 0 is no reading |
| `GrowOnlyCounter.GCounter.Inc` | distributed-primitives-go/replication/gcounter.go:20-22 | the node's slot grows by the amount |
| `GrowOnlyCounter.GCounter.Value` | distributed-primitives-go/replication/gcounter.go:25-31 | the loop sums all slots |
| `GrowOnlyCounter.GCounter.Merge` | distributed-primitives-go/replication/gcounter.go:35-41 | element-wise maximum |
| `GrowOnlyCounter.ValueCountsWhatWasSeen` | distributed-primitives-go/replication/gcounter.go:20-41 | in every run a replica's value is the sum of exactly the increments in its causal past, each once |
| `GrowOnlyCounter.ReplicasConverge` | distributed-primitives-go/replication/gcounter.go:20-41 | replicas that have seen the same increments agree, in whatever order and how often they merged |
| `GrowOnlyCounter.MergesInAnyOrder` | distributed-primitives-go/replication/gcounter.go:33-41 | merging the same counters in another order, or some of them again, gives the same counts and the same value |
| `TicketQueue.RedisServer.EvalCreate` | ttd/internal/queue/service.go:43-78 | the create script: -2 without capacity, 0 when full, else hold, counter and deadline together |
| `TicketQueue.RedisServer.EvalConfirm` | ttd/internal/queue/service.go:92-118 | the confirm script moves a held hold with a later deadline to the pending set |
| `TicketQueue.RedisServer.EvalFinalize` | ttd/internal/queue/service.go:131-143 | the finalize script confirms exactly a confirming hold |
| `TicketQueue.RedisServer.EvalRelease` | ttd/internal/queue/service.go:193-203 | the release script expires exactly a held hold and gives its place back |
| `TicketQueue.RedisServer.PendingRange` | ttd/internal/queue/service.go:235 | a pending hold is among those taken exactly when fewer than the count have a lower score, or the same and a smaller ID |
| `TicketQueue.FileBookingStore.constructor` | ttd/internal/queue/booking_store.go:27-47 | opening a log rebuilds the index from the entries |
| `TicketQueue.FileBookingStore.Record` | ttd/internal/queue/booking_store.go:49-75 | one entry per hold; a repeat is reported and changes nothing |
| `TicketQueue.Service.CreateHold` | ttd/internal/queue/service.go:43-78 | bad requests change nothing; otherwise a hold for this visitor exactly when the slot has a capacity above its count, else which of the two refusals it is |
| `TicketQueue.Service.ConfirmHold` | ttd/internal/queue/service.go:80-118 | without interference a confirmation succeeds exactly for a hold held and in time, by the clock and in milliseconds, or confirming or confirmed, with a confirmation time; which error otherwise; state and log agree |
| `TicketQueue.Service.ConfirmLatest` | ttd/internal/queue/service.go:103-112 | the second look after a refused confirmation finishes one that another worker began |
| `TicketQueue.Service.PersistAndFinalize` | ttd/internal/queue/service.go:120-144 | for any hold the caller read, overtaken or not: no confirmation time means no effect; otherwise the booking is recorded once and exactly a confirming hold is confirmed |
| `TicketQueue.Service.ReleaseExpiredHolds` | ttd/internal/queue/service.go:178-211 | undisturbed, a sweep releases exactly the due held holds, gives each slot its places back and counts them |
| `TicketQueue.Service.RecoverPendingConfirmations` | ttd/internal/queue/service.go:234-253 | undisturbed, the oldest hundred pending confirmations are taken up one by one |
| `TicketQueue.RecoveryCompletes` | ttd/internal/queue/service.go:234-253 | exactly the confirming holds taken up that have a confirmation time end confirmed, recorded and off the pending set; every other hold and index entry stays |
| `TicketQueue.NeverSweptEarlyIffWholeMillisecond` | ttd/internal/queue/service.go:178-182 | comparing whole milliseconds never takes a hold up before it expires exactly when its expiry is a whole millisecond |
| `QueueRuns.InvAlways` | ttd/internal/queue/service.go:43-253 | the queue invariant holds after every interleaving of scripts, bookings, recoveries, sweeps, crashes and restarts |
| `QueueGuarantees.UsedCountsActiveHolds` | ttd/internal/queue/service.go:43-144 | a slot's counter is the number of its held, confirming and confirmed holds |
| `QueueGuarantees.CreateTakesPlaceIff` | ttd/internal/queue/service.go:43-78 | in every run a visitor gets a hold, theirs and for the time asked, exactly when the slot has a capacity and fewer active holds; otherwise nothing changes and the reply tells a full slot from one without a capacity |
| `QueueGuarantees.HoldMoves` | ttd/internal/queue/service.go:80-211 | in every run what each step makes of a hold: exactly when it is confirming, confirmed, expired or dropped next |
| `QueueGuarantees.CapacityIsSetIff` | ttd/internal/queue/service.go:34-41 | a capacity changes exactly when a natural number is set for a named slot |
| `QueueGuarantees.HoldsCanSettle` | ttd/internal/queue/service.go:80-253 | from any moment of any run a hold in time can be confirmed and booked, a begun confirmation finished, and a due hold released |
| `QueueGuarantees.IndexesAreExact` | ttd/internal/queue/service.go:43-211 | the deadline set is exactly the held IDs with their deadlines, the pending set exactly the confirming IDs |
| `QueueGuarantees.NeverOverbooked` | ttd/internal/queue/service.go:43-253 | bookings of a slot never exceed places in use, nor those the largest capacity ever set |
| `QueueGuarantees.BookingsFitCapacity` | ttd/internal/queue/service.go:43-253 | if capacity is never lowered, bookings never exceed it |
| `QueueGuarantees.BookingsAreSound` | ttd/internal/queue/booking_store.go:49-75 | every confirmed hold is recorded, each hold at most once, with the hold's own data |
| `QueueGuarantees.BookingsHaveTimes` | ttd/internal/queue/service.go:120-126 | in every run every recorded booking has a confirmation time |
| `QueueGuarantees.NeverBookedAndExpired` | ttd/internal/queue/service.go:80-211 | no hold is booked at one moment and expired at any other |
| `QueueGuarantees.NeverReleasedEarly` | ttd/internal/queue/service.go:178-211 | whatever comes between scan and release script, a hold expires only once its deadline in milliseconds has come, so less than a millisecond early |
| `QueueGuarantees.NeverReleasedBeforeIff` | ttd/internal/queue/service.go:43-211 | no run releases a hold with a given expiry before it exactly when that expiry is a whole millisecond |
| `QueueGuarantees.EarlyReleaseExample` | ttd/internal/queue/service.go:43-211 | a four-step run that releases a hold one nanosecond early |
| `Resp.WriteCommand` | ttd/internal/queue/redis.go:38-46 | the writer emits the encoding of command and arguments |
| `Resp.Reader.ReadRESP` | ttd/internal/queue/redis.go:50-98 | the reader returns the value the grammar gives and consumes exactly its bytes, or the fault: the server's error message with the bytes behind it unread, malformed, or the panic of an overflowing length |
| `Resp.ReaderDecides` | ttd/internal/queue/redis.go:50-98 | for every first byte, line and rest: the value, the error, malformed or the panic |
| `Resp.AtoiIff` | ttd/internal/queue/redis.go:66-81 | a line is read as a number exactly when it is an optional sign and digits that denote a number of 64 bits |
| `Resp.LineIs` | ttd/internal/queue/redis.go:55-59 | a line ends at its line feed, without one carriage return before it; without a line feed there is none |
| `Resp.CommandRoundTrip` | ttd/internal/queue/redis.go:38-98 | reading back a command gives the same byte strings and consumes exactly the bytes written, also with CR LF inside (RESP specification, arrays and bulk strings) |
| `Resp.CommandsAreSelfDelimiting` | ttd/internal/queue/redis.go:38-98 | no encoded command is an initial part of another |
| `Resp.CommandBytesExample` | ttd/internal/queue/redis.go:38-46 | the bytes of one command, literally |
| `Resp.ReplyRoundTrip` | ttd/internal/queue/redis.go:50-98 | reading any legal reply, nested arrays, nulls and errors included, gives what it says; a value takes exactly the reply's bytes, an error anywhere in an array is the error of the whole and leaves the items behind it unread |
| `Resp.SimpleRoundTripIff` | ttd/internal/queue/redis.go:55-62 | a simple string comes back exactly when it holds no line feed |
| `RateLimiter.Limiter.Allow` | fintech-gateway-go/internal/ratelimit/limiter.go:127-153 | the key's tokens plus the rate times the seconds since it was last seen, up to the burst; one is taken exactly if there is one; a new key has a full bucket |
| `RateLimiter.Limiter.Sweep` | fintech-gateway-go/internal/ratelimit/limiter.go:99-110 | exactly the buckets idle since before the cutoff go |
| `RateLimiter.SweepIsDrops` | fintech-gateway-go/internal/ratelimit/limiter.go:99-110 | an undisturbed sweep is the drops of all keys, in any order |
| `RateLimiter.CoveredRateIsBounded` | fintech-gateway-go/internal/ratelimit/limiter.go:127-153 | with sweeps, every stretch that starts with a request of a key allows the key at most the burst plus what the rate brings from that request's reading to the key's latest, whatever the order of readings within the lag |
| `RateLimiter.WindowIsBounded` | fintech-gateway-go/internal/ratelimit/limiter.go:127-153 | every stretch whose readings of the key span a length allows it at most the burst plus the rate times that length or the lag, whichever is longer |
| `RateLimiter.SweepingIsInvisibleIffCovered` | fintech-gateway-go/internal/ratelimit/limiter.go:61-153 | for every lag, over all runs in lock order whose requests lag at most so far behind the readings used before them, answers with sweeps equal answers without exactly when the idle time less twice the lag covers a fill time; so does the rate bound |
| `RateLimiter.OvertakenRequestExample` | fintech-gateway-go/internal/ratelimit/limiter.go:99-153 | a request overtaken by the sweep of its bucket is allowed, and refused without the sweeper |
| `RateLimiter.FittingConfigsAreCovered` | fintech-gateway-go/internal/ratelimit/limiter.go:61-79 | truncated to seconds and raised to a minute, four fill times less twice a lag of up to 22 seconds cover one whenever they do not overflow |
| `RateLimiter.IdleTimeIsFourFills` | fintech-gateway-go/internal/ratelimit/limiter.go:66-71 | an idle time that does not overflow is the whole seconds in which the rate brings four bursts, and at least a minute |
| `RateLimiter.OverflowIsNotCovered` | fintech-gateway-go/internal/ratelimit/limiter.go:68-71 | a valid configuration whose idle time overflows and is not covered |
| `Ledger.Account.Debit` | fintech-ledger-go/internal/ledger/account.go:38-63 | a negative amount or a shortfall changes nothing |
| `Ledger.Account.Credit` | fintech-ledger-go/internal/ledger/account.go:47-67 | a negative amount changes nothing; otherwise int64 addition |
| `Ledger.Transfer` | fintech-ledger-go/internal/ledger/account.go:76-97 | the money moves or nothing does; sum and sign are kept exactly when the receiver does not overflow |
| `LedgerRuns.LocksAlwaysFit` | fintech-ledger-go/internal/ledger/account.go:83-97 | in every schedule locks are owned by exactly the threads that hold them |
| `LedgerRuns.NoDeadlock` | fintech-ledger-go/internal/ledger/account.go:76-97 | every reachable state with an unfinished transfer has a thread that can step |
| `LedgerRuns.StepsRunOut` | fintech-ledger-go/internal/ledger/account.go:76-97 | every step taken brings the end nearer |
| `LedgerRuns.RunsCanFinish` | fintech-ledger-go/internal/ledger/account.go:76-97 | every run can be brought to an end in which all transfers are done |
| `LedgerRuns.SchedulesAreSerial` | fintech-ledger-go/internal/ledger/account.go:76-97 | when no transfer is half done, the balances are those of one order of whole transfers |
| `LedgerMoney.ThreadsReportTruly` | fintech-ledger-go/internal/ledger/account.go:57-97 | a decided transfer has a place in that order and reports success exactly when the balances there could pay |
| `LedgerMoney.MoneyIsConserved` | fintech-ledger-go/internal/ledger/account.go:57-97 | from non-negative balances with an int64 sum, every schedule keeps balances non-negative and the money, in accounts and in flight, the same |
| `LedgerMoney.RunsAlone` | fintech-ledger-go/internal/ledger/account.go:76-97 | a thread that meets no other carries out the whole transfer |
| `LedgerMoney.SafeIffTotalFits` | fintech-ledger-go/internal/ledger/account.go:57-97 | under all transfers and schedules balances stay non-negative exactly when the opening balances sum to an int64, and money is conserved exactly then |
| `LedgerMoney.OverflowExample` | fintech-ledger-go/internal/ledger/account.go:65-97 | one unit sent to a full account turns it negative and breaks conservation |
| `Raft.Cluster.Partition` | distributed-primitives-go/raft/cluster.go:44-58 | the named nodes get a fresh group; unknown IDs are ignored |
| `Raft.Cluster.Heal` | distributed-primitives-go/raft/cluster.go:61-67 | every node is in group 0 |
| `Raft.Cluster.Reachable` | distributed-primitives-go/raft/cluster.go:71-79 | the loop counts the nodes of the candidate's group |
| `Raft.Cluster.Elect` | distributed-primitives-go/raft/cluster.go:85-116 | it wins exactly when more than half of all nodes are in its group; won or lost the candidate keeps a term above all others |
| `Raft.ElectionIsExact` | distributed-primitives-go/raft/cluster.go:85-116 | in every history a candidate wins exactly when twice its group exceeds the cluster; every node's term and role afterwards, and the committed term |
| `Raft.Cluster.Write` | distributed-primitives-go/raft/fencing.go:13-23 | accepted exactly for a leader at or above the committed term; the caller's effect is applied once exactly when accepted |
| `Raft.FenceAdmitsLatestWinner` | distributed-primitives-go/raft/fencing.go:13-23 | in every history a node may write exactly when it won the latest won election and has not stood and lost since |
| `Raft.OneLeaderAtCommittedTerm` | distributed-primitives-go/raft/cluster.go:85-116 | at most one node leads at the committed term, any other leader is older |
| `Raft.CommittedTermRises` | distributed-primitives-go/raft/cluster.go:113-115 | the committed term never falls, and while it stays the right to write can only be lost |
| `Raft.LosersStepBack` | distributed-primitives-go/raft/cluster.go:92-103 | a candidate without a majority is a follower with a term above all others, and nothing else changes |
| `Raft.NoTermWonTwice` | distributed-primitives-go/raft/cluster.go:85-116 | no two won elections have one term |
| `Raft.AcceptedWritesAreOrdered` | distributed-primitives-go/raft/fencing.go:13-23 | terms of accepted writes never decrease, and one term has one writer |
| `Raft.StaleLeadersAreFenced` | distributed-primitives-go/raft/fencing.go:13-23 | after another node has won, an old leader writes again only after winning again |
| `Raft.QuorumsIntersect` | distributed-primitives-go/raft/cluster.go:40-103 | the electing groups of any two won elections share a node |
| `Raft.PartitionIsolates` | distributed-primitives-go/raft/cluster.go:44-58 | two nodes reach each other after a partition exactly when both were named, or neither was and they did before |
| `Raft.HealedClustersElect` | distributed-primitives-go/raft/cluster.go:61-116 | after healing, whoever stands wins and may write |
| `LruCache.Shard.Get` | fintech-gateway-go/internal/cache/cache.go:66-84 | an expired entry leaves map and list; a live one moves to the front |
| `LruCache.Shard.Set` | fintech-gateway-go/internal/cache/cache.go:88-114 | overwrite in place, or push and drop the last when over capacity |
| `LruCache.Shard.Reload` | fintech-gateway-go/internal/cache/cache.go:130-164 | the second half of GetOrLoad: re-check, load, store; a failed load changes nothing |
| `LruCache.Shard.GetOrLoad` | fintech-gateway-go/internal/cache/cache.go:125-165 | the two halves in sequence |
| `LruCache.InvAlways` | fintech-gateway-go/internal/cache/cache.go:66-165 | in every history map and list hold the same keys, each once, within capacity |
| `LruCache.StepMovesSpot` | fintech-gateway-go/internal/cache/cache.go:66-165 | what a step does to a key's entry and to the keys in front of it is decided by those and the step's visible effect |
| `LruCache.MemoryDecidesSpot` | fintech-gateway-go/internal/cache/cache.go:66-165 | a key is present exactly when it was stored, was not found stale since, and was at no time since its last touch passed by capacity other live keys |
| `LruCache.EffectsNeedNoShard` | fintech-gateway-go/internal/cache/cache.go:66-165 | the effects that keys remember follow from their memories alone, so the memories are a specification without map or list |
| `LruCache.GetIsExact` | fintech-gateway-go/internal/cache/cache.go:66-84 | a Get answers exactly when the key is present by its own history and not past its TTL, with the value last stored |
| `LruCache.ReloadIsExact` | fintech-gateway-go/internal/cache/cache.go:130-164 | the second half of GetOrLoad answers from the cache exactly strictly before expiry, otherwise what the loader gave |
| `LruCache.HitsReturnLastStored` | fintech-gateway-go/internal/cache/cache.go:66-84 | a hit returns the value last stored under the key, at most TTL after |
| `LruCache.MissingWasCrowdedOut` | fintech-gateway-go/internal/cache/cache.go:88-165 | with a clock that does not run backwards, an unexpired stored key is missing only if at least capacity other keys were touched after its last touch |
| `HashRing.NewHashRing` | fintech-gateway-go/internal/loadbalancer/ring.go:26-35 | all virtual nodes of all backends, each as often as it was appended, sorted by hash |
| `HashRing.Search` | fintech-gateway-go/internal/loadbalancer/ring.go:51 | binary search splits the ring at the key's hash |
| `HashRing.Get` | fintech-gateway-go/internal/loadbalancer/ring.go:46-59 | the backend of a healthy virtual node at the least clockwise distance modulo 2^32, none exactly when none is healthy |
| `HashRing.RingNodesAre` | fintech-gateway-go/internal/loadbalancer/ring.go:9-35 | a hundred nodes for every backend, one for each hash of its ID and a number |
| `HashRing.KeysGoClockwise` | fintech-gateway-go/internal/loadbalancer/ring.go:26-59 | a key goes to a healthy backend one of whose hundred points comes first clockwise, and nowhere exactly when no backend is healthy |
| `HashRing.WalkIsClockwise` | fintech-gateway-go/internal/loadbalancer/ring.go:52-53 | the wrapping walk meets nodes in order of clockwise distance |
| `HashRing.RemovingIsFailing` | fintech-gateway-go/internal/loadbalancer/ring.go:26-59 | when no two backends share a hash, a ring built without a backend routes every key as the full ring does with it unhealthy |
| `HashRing.OnlyItsKeysMove` | fintech-gateway-go/internal/loadbalancer/ring.go:26-59 | so only the keys of that backend move |
| `UsageKeys.ParseInvertsKey` | subscription-core/usage/flusher.go:88-105 | a key reads as a usage exactly when it is that usage's key and the usage is clean |
| `UsageKeys.KeysAreDistinct` | subscription-core/usage/meter.go:22-25 | clean usages never share a key |
| `UsageKeys.ColonMovesUsage` | subscription-core/usage/flusher.go:88-105 | with a colon in the feature the usage reads as another subject's |
| `UsageFlush.MemoryCounter.Incr` | subscription-core/usage/counter.go:34-39 | int64 addition to one key |
| `UsageFlush.MemoryCounter.Snapshot` | subscription-core/usage/counter.go:48-56 | the loop copies the whole map |
| `UsageFlush.Meter.Record` | subscription-core/usage/meter.go:22-30 | recording increments the key of subject, feature and period |
| `UsageFlush.Flusher.FlushOnce` | subscription-core/usage/flusher.go:42-65 | the keys are visited in some order up to the end or the first failed append; a failed key stays to be flushed |
| `UsageRuns.FlushIsVisits` | subscription-core/usage/flusher.go:48-64 | the loop over a snapshot is a run of single visits |
| `UsageRuns.LedgerHoldsFlushed` | subscription-core/usage/flusher.go:42-65 | at every moment of every interleaving, failed appends and restarts included, the int64 sum of a usage's entries is what the flusher found plus the flushed total of its key; nothing is added to unclean usages |
| `UsageRuns.ChargesAreReal` | subscription-core/usage/flusher.go:48-63 | in every history each charge is for a non-zero 64-bit amount and a usage that a key names |
| `UsageRuns.FlushSettlesSnapshot` | subscription-core/usage/flusher.go:42-65 | after an error-free flush that sum is what the flusher found plus the snapshot's total |
| `UsageRuns.ChargeWasRecorded` | subscription-core/usage/flusher.go:42-65 | whatever fails, a flusher adds to a charge nothing, or the total the counter held at some moment since it started |
| `UsageRuns.BilledIsRecorded` | subscription-core/usage/flusher.go:42-105 | end to end: with clean usages and no restart an error-free flush charges exactly what was recorded before its snapshot |
| `UsageRuns.RestartKeepsChargesIff` | subscription-core/usage/flusher.go:25-38 | after a restart an error-free flush charges what was ever recorded exactly when, at the restart, the charge and what the counters kept made up what had been recorded |
| `UsageRuns.FirstRestartKeepsChargesIff` | subscription-core/usage/flusher.go:25-38 | for the first restart: over durable counters exactly for usages not charged before, with lost counters exactly for usages charged in full |
| `UsageRuns.DoubleChargeExample` | subscription-core/usage/flusher.go:25-38 | five recorded units charged as ten after a restart |
| `Entitlements.Service.Entitlement` | subscription-core/entitlements/service.go:31-41 | cache first, then derive and fill; an outage only skips the cache |
| `Entitlements.Service.Check` | subscription-core/entitlements/service.go:57-74 | the base decision with the metered usage on top |
| `Entitlements.Processor.Handle` | subscription-core/webhook/processor.go:46-98 | duplicates, stale and illegal events change no row; others write the merged row and bust its customer |
| `Entitlements.Reconciler.ReconcileOne` | subscription-core/reconcile/reconciler.go:43-76 | adopt, skip, leave or repair, and bust on every write |
| `EntitlementRuns.CacheAgrees` | subscription-core/entitlements/service.go:31-53 | after any history every cached entitlement is the one derived from the store |
| `EntitlementRuns.ChecksIgnoreCache` | subscription-core/entitlements/service.go:31-74 | a check answers the same with the cache up, down or cold |
| `EntitlementRuns.EntitlementIsPlan` | subscription-core/domain/entitlement.go:45-68 | after any history a subject is entitled to its plan's tier and features, the larger number of seats, and active while active, trialing or past due |
| `EntitlementRuns.CheckAllowsIff` | subscription-core/entitlements/service.go:57-74 | after any history a check allows exactly on a known plan, in good standing or grace, with the feature on and the usage below its cap; otherwise which refusal it gives |
| `EntitlementRuns.RedeliveryChangesNothing` | subscription-core/webhook/processor.go:52-58 | an event ID is applied at most once |
| `EntitlementRuns.ProcessedEventTakesHold` | subscription-core/webhook/processor.go:60-98 | the row then agrees with the provider's snapshot at the event's status, keeps its customer and answers for them, and nothing older is cached |
| `EntitlementRuns.EventWritesRow` | subscription-core/webhook/processor.go:52-98 | the rows after any event: the status each type asks for, the table of legal moves, and which fields come from the event and which stay |
| `EntitlementRuns.WatermarksNeverFall` | subscription-core/webhook/processor.go:75-78 | in whatever order events and answers arrive, a subscription's watermark never falls while no answer overwrites it unasked |
| `EntitlementRuns.StepLowersWatermarkIff` | subscription-core/reconcile/reconciler.go:43-76 | a step lowers a watermark exactly when it writes an older answer about a subscription that was not asked for |
| `EntitlementRuns.WatermarksNeverFallIff` | subscription-core/reconcile/reconciler.go:43-76 | with events and answers handled one at a time, no watermark ever falls exactly when there is no such answer |
| `EntitlementRuns.UnaskedAnswerExample` | subscription-core/reconcile/reconciler.go:49-57 | a history of two answers that lowers another subscription's watermark |
| `EntitlementRuns.StepRevivesIff` | subscription-core/domain/statemachine.go:13-41 | a step brings a canceled subscription back exactly when it writes an answer of the provider that says so; no event does |
| `EntitlementRuns.CanceledIsFinalIff` | subscription-core/domain/statemachine.go:13-41 | over a whole history a canceled subscription stays canceled exactly when there is no such answer |
| `EntitlementRuns.ReconcileConverges` | subscription-core/reconcile/reconciler.go:43-100 | an answer is written exactly when it is accepted; the row asked for then agrees with an answer about it unless that is older, and reconciling again changes nothing |
| `EntitlementRuns.UpsertKeepsIndexesIff` | subscription-core/store/memory/memory.go:59-65 | a write keeps every subject's row current exactly when it moves no customer |
| `EntitlementRuns.IndexesAlwaysAgreeIff` | subscription-core/store/memory/memory.go:39-65 | the row found by subject is at every moment the current row of its subscription exactly when no written answer moves a customer; events never do |
| `EntitlementRuns.FormerCustomerKeepsAccess` | subscription-core/reconcile/reconciler.go:71-75 | a history of two answers that moves and cancels a subscription and leaves the former customer active |
| `EntitlementRaces.EntryWasTrueOnce` | subscription-core/entitlements/service.go:31-53 | in every interleaving of derivations, fills, writes, busts, outages and crashes a cached entry was what the store said at some earlier moment |
| `EntitlementRaces.EntryIsTrueIffFillWas` | subscription-core/entitlements/service.go:31-41 | unless a bust is pending or was lost since the fill, a cached entry is true now exactly when it was true at its fill |
| `EntitlementRaces.PromptFillsKeepCacheTrue` | subscription-core/webhook/processor.go:93-97 | if no row of the subject was written between an entry's derivation and its fill and no bust was lost since, the entry is true or a bust is on its way |
| `EntitlementRaces.StraddlingFillExample` | subscription-core/entitlements/service.go:35-39 | a fill that straddles a write and its bust leaves a canceled customer with access and nothing pending |
| `EntitlementRaces.LostBustExample` | subscription-core/webhook/processor.go:93-96 | a writer that stops before its bust leaves a canceled customer with access, although the fill was prompt |
| `WebhookRaces.UndisturbedHandlerHandles` | subscription-core/webhook/processor.go:46-98 | marking, looking and writing with nothing in between is one call of the handler |
| `WebhookRaces.UndisturbedReconcilerReconciles` | subscription-core/reconcile/reconciler.go:43-76 | asking and writing with nothing in between is one reconciliation |
| `WebhookRaces.WatermarksNeverFallIff` | subscription-core/webhook/processor.go:60-95 | over all interleavings of handlers and reconcilers, a watermark never falls exactly when no worker writes after a newer row of the subscription was written since it looked, or ever if it looked at another row |
| `WebhookRaces.OverlappingHandlersExample` | subscription-core/webhook/processor.go:60-70 | two events of a new subscription handled at once bring a canceled subscription back to an older state |
| `WebhookRaces.EventIsWrittenIff` | subscription-core/webhook/processor.go:52-95 | an event is written at most once; once its handler is done it has been written exactly when the handler neither stopped nor found it stale or illegal, and that never changes |

## Left out

- HTTP handlers, main programs, pages, metrics and tracing: plumbing around the modelled cores.
- Stores backed by Postgres, Kafka or Redis servers: their guarantees rest on schemas and locks that are not in the code; Redis itself is modelled as the commands the queue uses.
- Cryptography: SHA-256 is an injective constructor, FNV-1a a function parameter, signature checks an optional event.
- Goroutines, channels, timers and contexts: workers are atomic steps in any order; a cancelled context and a failing random source only ever refuse an operation, except that a claim can run out of tokens.
- Random IDs and tokens: arguments that have not been issued before.
- Timestamps of orders and events that no decision reads (created, updated, delivered): left out of the rows.
- An outbox event of unknown kind: no code enqueues one.
- Wrap-around of uint64 counters in clocks, grow-only counters and Raft terms: unbounded.
- Floating-point rounding in the rate limiter: reals; the 256 hash shards are one map, because keys never share a bucket.
- Partial file writes and failed syncs of the booking log, and two processes on one log: `Record` either succeeds or has no effect.
- The other queue endpoints: `GetHold` is the `Look` step; text encodings of times and scores are the values themselves.
- Several backends with one ID: a backend is its ID.
- Live `*Node` references returned by an election: nodes are values inside the cluster.
- The hash shards of the cache: one shard is modelled; each works alone.
- Convergence of webhook events under reordering, the last-writer-wins register at equal stamps, the railcache breaker's single probe and livescale's device slots: the code does not promise them.
- `fintech-ledger-go` single debits and credits among concurrent transfers: only transfers take part in the schedules.
- RateLimiter.Limiter.Allow: the conversion of an out-of-range float to a duration is modelled as wrap-around, which Go leaves to the implementation.
- Resp.CommandRoundTrip: for counts and lengths that fit Go's int with the two bytes that end a part, which is all that the reader can take.
- Resp.Reader.ReadRESP: a length that fits Go's int but not the memory makes Go panic; here the bytes are then missing and the reply is malformed.
- LruCache.Shard.GetOrLoad: states the two halves without another caller between them; histories interleave them as separate steps.
- TicketQueue.Service.ConfirmHold: states the undisturbed call; interference between its steps is in `QueueRuns`.
