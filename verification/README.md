# Bakery order exchange: a verified model

The repository is an order exchange for a bakery. Buyers' orders arrive through a queue at a
broker, which stores them through a server, matches them in batches (highest bid first) and
reserves stock item by item through the same server. The server is the only writer of the stock,
order and outbox tables. Makers restock through another queue, settled orders are routed back to
the streams that wait for them; retries, circuit breakers and rate limiters guard the calls. This
project models that core in Dafny and proves what it guarantees, and exactly when
it does not. `dafny verify dfyconfig.toml` checks everything.

## How it is built

Code that changes state is modelled by classes and methods with the source's own fields, branches
and loops; each method is proved against a function on values, and what the system promises is
proved as lemmas about those functions, over all inputs and whole runs.

| file | what it holds |
|---|---|
| Orders, Database | orders, lines, labels, 32-bit conversion; the tables and what each transaction does to them |
| Repository, BrokerServer | the data layer and the broker-facing server as classes over those tables |
| Sorting, Priority | the in-place sort, the bid comparator, when the schedule is determined |
| Matching, Broker | the matching engine as functions of stock and network, and the broker as a class proved against them |
| Allocation, Statuses, Costs | who gets what; what the order labels mean; when the reported cost is the stored one |
| Conservation, Restock, Interleaving | where the stock goes over whole runs, with lost replies; restocks split in two statements; both at once, attempt by attempt |
| Refinement, RowLocks, InsertLocks | item-by-item reservation against the single transaction; row locks, serialisability, deadlock; the same beside inserts and posted batches |
| Ingestion, Outbox | redelivered orders and the buffer; the outbox protocol |
| CircuitBreaker, Retry, RateLimit | the resilience primitives |
| Settlement | the dispatcher of settled orders |

An RPC attempt is refused before it acts, acts and loses its reply, or is answered; a network is
any list of such attempts per call. A delivery is a step that may repeat. The clock, database
failures and what other goroutines do are inputs. Bids, prices, rates and tokens are exact reals,
durations integers; conversions to `int32`, to cents and back to whole nanoseconds are written out.

Proofs carry `hide` statements that keep definitions a proof does not need out of the solver's
sight, and `{:induction false}` where the induction is written out.

## Where code and comments part

The model follows the code. In these places the comments, or the nicer property, say otherwise:

- A rejected order keeps what it had reserved, and its cost stays counted
  (`Conservation.RejectedButTakenIff`, `Conservation.RejectedButTaken`).
- The broker calls a partial reservation "fulfilled"; the transaction calls it "partially_fulfilled"
  (`Refinement.SameItems`). With quantities of zero or less the two paths part ways further
  (`Refinement.AgreeIff`).
- A positive bid on the order wins outright, even over a higher bid on one of its items
  (`Priority.HighestBidIff`).
- With quantities of both signs a fully delivered order is not "processed"
  (`Statuses.ProcessedIsHonestIff`).
- A lost reply to a reservation deducts again on the retry (`Conservation.EachLostReplyDeductsAgain`);
  any database failure is answered as insufficient stock.
- A lost reply to `ReportOrder` leaves an order stored that is acknowledged as a duplicate on the
  retry and never matched (`Ingestion.FateOfNewOrder`, `Ingestion.StrandedForever`).
- `AdjustBreadQuantity` reads and writes in two statements, so a restock can undo a reservation
  (`Restock.WriteIsAtomicIff`). A message for an unknown bread is requeued for ever.
- The breaker does not count consecutive failures: a success while closed resets nothing
  (`CircuitBreakers.ConsecutiveIff`), and half-open lets every caller through
  (`CircuitBreakers.HalfOpenAdmitsEverybody`).
- The first retry pause is not capped by `MaxDelay` (`Retries.CapHoldsIff`).
- `Unregister` is keyed by uuid: a stream that gives up also cuts off whoever registered the same
  uuid after it, and the send in `deliver` can hit a channel that was closed since its flag was read
  (`Settlement.StreamIsFoundIff`, `Settlement.SplitSendFailsIff`).
- A settlement is acknowledged even if nobody received it, and then lost to this path
  (`Settlement.SettlementDispatcher.RouteAndAck`, `Settlement.LostIff`, `Settlement.LateStreamGetsNothing`).
- Storing an order share-locks breads in the buyer's order, so the sorted locks do not rule out deadlocks with
  it (`InsertLocks.InsertIsSafeIff`).
- `DeleteOutboxMessage` reports success when the delete failed.

## Model

| member | source | states |
|---|---|---|
| `Orders.ToInt32` | broker/main.go:428-429 | the 32-bit conversion: in range, congruent to its input modulo 2^32, and the input itself when it fits |
| `Sorting.SinkInto` | broker/matching.go:81-88 | one element sinks in place to its position in the sorted prefix, and nothing behind it moves |
| `Sorting.SortSlice` | broker/matching.go:81-88 | the in-place sort leaves a sorted permutation of what was there |
| `Sorting.InsertionSortSorts` | broker/matching.go:81-88 | the specification of the sort is a sorted permutation, for any strict weak order |
| `Sorting.SortDeterminedIff` | broker/matching.go:81-88 | any two sorts of a list agree exactly when the comparator separates its distinct elements |
| `Priority.MaxBidPrice` | broker/matching.go:54-64 | a positive order bid is returned as it is; otherwise the result is an upper bound of the order's and its items' bids, and one of them |
| `Priority.HighestBidIff` | broker/matching.go:52-64 | the documented highest bid is returned exactly if the order's own bid is not positive or no item bids more |
| `Priority.OutranksIsStrictWeak` | broker/matching.go:81-88 | the comparator is a strict weak order, which `sort.Slice` needs |
| `Priority.SortedIsHighestFirst` | broker/matching.go:81-88 | whatever sorts a batch by the comparator has nobody before a higher bid, nor among equal bids before a lower sequence number |
| `Priority.ScheduleDeterminedIff` | broker/matching.go:80-88 | the matching order depends on nothing but the batch exactly when no two different orders share bid and sequence number |
| `Priority.ArrivalOrderIrrelevant` | broker/matching.go:80-88 | every permutation of a batch with distinct ranks is matched in the same order by any correct sort |
| `Repository.PostgresRepository.constructor` | data/models.go:26-33 | an empty repository satisfies the schema's constraints |
| `Repository.PostgresRepository.FulfillOrderItem` | data/models.go:560-605 | deducts the lesser of request and stock; an unknown bread, no stock or a request of nothing changes nothing, with its own error |
| `Repository.PostgresRepository.RunLines` | data/models.go:455-531 | the per-line loop of the transaction on its own writes; it fails on a missing bread row |
| `Repository.PostgresRepository.FulfillOrderTx` | data/models.go:439-554 | sorts the lines by bread id, then commits the stock, the details and the status that the totals give, or changes nothing; uuid, customer and all other orders stay |
| `Repository.PostgresRepository.FetchQuantity` | data/models.go:364-375 | the first statement of an adjustment: the quantity, or none for an unknown bread |
| `Repository.PostgresRepository.StoreQuantity` | data/models.go:392-402 | the second statement: overwrites the quantity of an existing bread |
| `Repository.PostgresRepository.AdjustBreadQuantity` | data/models.go:354-405 | undisturbed: the quantity moves by the change, capped at 100; it is counted iff not capped, and refused below zero or for an unknown bread |
| `Repository.PostgresRepository.InsertBuyOrder` | data/models.go:264-302 | stores header and pending details exactly if customer, uuid, breads and prices meet the schema, column widths included, otherwise nothing; the id sequence moves on either way |
| `Repository.PostgresRepository.GetBuyOrderByUUID` | data/models.go:826-845 | finds an order by uuid exactly if there is one |
| `Repository.PostgresRepository.GetOrderTotalCost` | data/models.go:158-179 | the sum of price times quantity over the stored details, 0 for an unknown order |
| `Repository.PostgresRepository.ClaimOutboxMessage` | data/models.go:1019-1047 | marks and returns an oldest unsent message; none exactly when all are sent |
| `Repository.PostgresRepository.DeleteOutboxMessage` | data/models.go:1050-1063 | removes the message unless the database fails, which the caller does not see |
| `Database.RemoveRowSelects` | data/models.go:1055-1057 | deleting by id removes the row with that id and keeps all others |
| `Repository.WriteDetailsBreads` | data/models.go:520-524 | updating details by (order, bread) keeps their number and their breads |
| `BrokerServer.BrokerServiceServer.ReportOrder` | server/broker_service.go:34-70 | "duplicate" exactly if the check works and finds the uuid; accepted, with the row stored field by field, exactly if the uuid is new, the insert works and the schema admits the order as the 32-bit message carries it; otherwise an error, and nothing stored |
| `BrokerServer.BrokerServiceServer.ReserveInventory` | server/broker_service.go:79-109 | reserved with the granted amount, or not reserved for any reason, a failing database included |
| `BrokerServer.BrokerServiceServer.ReportMatchingResults` | server/broker_service.go:121-191 | all statuses and one unsent outbox row per result, or nothing, whichever statement fails |
| `Broker.OrderBuffer.Add` | broker/matching.go:29-33 | appends |
| `Broker.OrderBuffer.Drain` | broker/matching.go:35-44 | returns everything in order and leaves the buffer empty |
| `Broker.OrderBuffer.Len` | broker/matching.go:46-50 | the number of buffered orders |
| `Broker.BrokerService.ProcessOneOrder` | broker/main.go:385-421 | unreadable: acknowledged and dropped; known uuid: acknowledged iff some working duplicate check is heard; refused by the schema: requeued; new: stored at the first attempt that reaches the insert, buffered unchanged but for a missing id iff that attempt is heard, and else acknowledged iff a later one finds it |
| `Broker.BrokerService.ReportOrder` | broker/main.go:60-78 | the retried call: ends at the first answer that comes back, under any attempts |
| `Broker.BrokerService.ReserveInventory` | broker/main.go:80-98 | the retried reservation: stock and granted amount under any attempts |
| `Broker.BrokerService.MatchLine` | broker/matching.go:133-171 | one item: skipped, reserved, or labelled by the buyer's flags |
| `Broker.BrokerService.FulfillOrder` | broker/matching.go:122-201 | items, totals, cost and status of an order, and the stock it leaves; each item labelled by its quantity, by whether it got anything and by the buyer's flags |
| `Broker.BrokerService.OrderStatusFrom` | broker/matching.go:176-192 | the order label from the rejected flag and the two totals |
| `Broker.BrokerService.PostResults` | broker/main.go:100-118 | under retries: statuses as after one commit iff some attempt commits, outbox rows once per commit, and confirmed iff the reply to a commit comes back |
| `Broker.CommitsUpTo` | broker/main.go:100-118 | the batch is committed by each attempt that can, up to and including the first that is confirmed |
| `Broker.BrokerService.ProcessMatchingBatch` | broker/matching.go:75-117 | sorts the batch in place, highest bid first and then lowest sequence number, matches in that order on what predecessors left, reports all results together |
| `Broker.BrokerService.MatchAll` | broker/matching.go:92-101 | one listed result per order, each on the stock its predecessors left |
| `Broker.BrokerService.OnTick` | broker/main.go:285-290 | the timer drains whatever is buffered |
| `Broker.BrokerService.OnBusy` | broker/main.go:291-296 | the busy check drains exactly at 100 orders or more |
| `Allocation.LinesLeave` | broker/matching.go:133-174 | on a reliable network the first n lines leave of each bread what their demand does not use up |
| `Allocation.GreedyAllocation` | broker/matching.go:92-101 | the first n orders together take and report exactly min(stock, their positive demand) of each bread |
| `Allocation.ExactShare` | broker/matching.go:92-101 | every item is granted exactly what the demand ahead of it leaves of the initial stock |
| `Allocation.NobodyOvertakes` | broker/matching.go:80-101 | if an item gets anything, every item for the same bread ahead of it got all it wanted |
| `Allocation.HigherBidsAreFilled` | broker/matching.go:80-101 | by bids: if an order gets anything of a bread, every line for it in an order that bids more, or as much with a lower sequence number, got all it wanted |
| `Allocation.ArrivalOrderChangesNothing` | broker/matching.go:80-101 | any arrival order and any correct sort of a batch with distinct ranks gives the same results and stock, on any network |
| `Statuses.GrantBounded` | broker/matching.go:143-173 | on any network an item gets between nothing and what it asked for |
| `Statuses.TotalsTell` | broker/matching.go:172-187 | equal totals mean every item is full, a zero total means every item is empty |
| `Statuses.RejectedMeans` | broker/matching.go:149-156 | an item is rejected exactly when both flags are off and some positive item got nothing |
| `Statuses.ResultIsLabelled` | broker/matching.go:133-171 | on any network a result names its order and, line by line, what was asked for; the item label is skipped, fulfilled or rejected by quantity, grant and flags |
| `Statuses.StatusMeansItems` | broker/matching.go:182-192 | each order label as a condition on the single items, on any network, for all quantities of at least 0, 32 bits or not |
| `Statuses.ProcessedIsHonestIff` | broker/matching.go:176-187 | for orders that fit the 32-bit wire: "processed" means fully delivered on every stock and network exactly when quantities are not of both signs |
| `Statuses.MixedSignsMislead` | broker/matching.go:176-187 | with both signs and ample stock all is delivered and still not "processed" |
| `Costs.CentsKeptIff` | bakery.sql:186 | the price column keeps a price of either sign exactly when it is in whole cents |
| `Costs.NearestCent` | bakery.sql:186 | the price column holds whole cents, within half a cent of the price, and rounds half a cent away from zero |
| `Costs.CostBounded` | broker/matching.go:172-173 | delivering no more than ordered costs no more than the stored order, for prices that the column neither lowers nor makes negative |
| `Costs.ProcessedInFull` | broker/matching.go:186-187 | a processed order without negative quantities costs what its lines add up to at the buyer's prices |
| `Costs.StoredCostIsDetailsCost` | server/broker_service.go:214-222 | the stored details of an order that fits the wire add up to its lines at column precision |
| `Costs.CostAgreement` | data/models.go:158-162 | for 32-bit quantities not of both signs and prices of either sign in whole cents: a processed order's reported cost equals the database's, on any network |
| `Costs.CostNeverExceeds` | data/models.go:158-162 | for nonnegative 32-bit quantities and prices that the column neither lowers nor makes negative, as nonnegative whole cents are: no reported cost exceeds the database's, on any network |
| `Costs.AgreementIff` | data/models.go:286-289 | for given 32-bit bread ids and prices of either sign: every processed order for them, in 32-bit quantities not of both signs, costs the same in both places, on all stocks and networks, exactly when all prices are in whole cents |
| `Costs.NeverExceedsIff` | data/models.go:286-289 | for given 32-bit bread ids and prices of either sign: no order for them, in nonnegative 32-bit quantities, is ever reported to cost more than the database says exactly when the column neither lowers a price nor makes it negative |
| `Costs.OneLineAgreesIff` | data/models.go:286-289 | a single filled one-line order in 32 bits costs the same in both places exactly when its price, of either sign, is in whole cents |
| `Conservation.ReserveAccounts` | broker/main.go:80-98 | under any attempts a call takes from its bread what it reports plus what lost replies hid, and nothing from others |
| `Conservation.LeaksIff` | broker/main.go:89-96 | a call hides stock exactly when a reply is lost while there is something to take |
| `Conservation.EachLostReplyDeductsAgain` | broker/main.go:80-98 | with enough stock, n lost replies take n times the request beyond what is reported |
| `Conservation.OrdersAccount` | broker/matching.go:92-101 | what a schedule took of a bread is what all its results report, rejected ones included, plus what leaked |
| `Conservation.RunConserves` | broker/matching.go:144-173 | over any run of batches with whole restocks between them: stock + reported + leaked = initial stock + restocked, and leaked is never negative |
| `Conservation.LosslessRunsReportAll` | broker/main.go:80-98 | with no lost reply the reports account for everything that was taken |
| `Conservation.StockIsKeptIff` | broker/matching.go:133-173 | on any network an order, rejected or not, leaves the stock as it was exactly if each of its lines asks for nothing, finds nothing, or has no attempt that reaches the stock; otherwise there is less, never more |
| `Conservation.ReliablyKeptIff` | broker/matching.go:133-173 | on a reliable network that is: each line asks for nothing or its bread is out of stock |
| `Conservation.RejectedButTakenIff` | broker/matching.go:149-192 | on a reliable network, when an order is rejected and has taken stock all the same: flags off, one line too late, one line that finds something |
| `Conservation.RejectedButTaken` | broker/matching.go:149-192 | two lines without flags, the second out of stock: rejected, with the first bread reduced and its cost charged |
| `Interleaving.InterleavingConserves` | broker/matching.go:133-173 | attempt by attempt, with restocks split into read and write anywhere in between: stock + reported + leaked + overwritten changes = initial stock + restocked |
| `Interleaving.CallRun` | broker/main.go:80-98 | the steps of one call with its retries add up to the call |
| `Interleaving.ScheduleRun` | broker/matching.go:92-101 | with nobody else at work the steps add up to the matching engine: same results, same stock, on any network |
| `Refinement.AgreeIff` | data/models.go:449-543 | for every order the schema can store and every stock: item-by-item reservation leaves the stock and reaches the status of the id-sorted transaction exactly if no negative quantity meets a stocked bread and no line asking for nothing or less is alone in being out of stock with both flags off |
| `Refinement.SameStockIff` | data/models.go:507-510 | the stock half of it: the two stocks are equal exactly if no negative quantity meets a stocked bread |
| `Refinement.BrokerRefinesTransaction` | data/models.go:449-543 | they agree on every stock if each line asks for something, or for nothing with a flag set |
| `Refinement.WriteDetailsAt` | data/models.go:520-524 | of detail updates with distinct breads a row gets the one for its bread, and a row for another bread none |
| `Refinement.SameItems` | data/models.go:472-529 | the stored detail row of each line after the transaction against the broker's report: the same quantity per bread; the labels differ for a partial grant and for a line that asks for nothing |
| `Refinement.StoredOrder` | data/models.go:535-551 | the stored order row after the transaction: only status and details change, only details of breads it names, and no other order; for an order that adds to no stock the stored status is the broker's exactly if both refuse alike |
| `Refinement.StoredStatusMeansStock` | data/models.go:535-551 | each stored status of a storable order as a condition on its lines and the stock before; with negative quantities, "rejected" alone |
| `Refinement.TransactionLeaves` | data/models.go:459-513 | also for lines that repeat a bread: the transaction leaves of each bread what the demand for it does not use up |
| `Refinement.AgreeOnEveryStockIff` | data/models.go:472-513 | both paths agree on every stock exactly for the orders, of any length, whose lines all ask for something, or for nothing with a flag set |
| `RowLocks.AloneIsTheRepositoryCall` | data/models.go:439-605 | run alone, the lock-by-lock transaction is the repository's own call |
| `RowLocks.SortedProgramsAreInLockOrder` | data/models.go:449-453 | sorting by id puts a transaction's bread locks in ascending order |
| `RowLocks.ComputeIsLocal` | data/models.go:462-513 | a transaction's work depends only on the bread rows it holds |
| `RowLocks.OnlyHeldRowsChange` | data/models.go:459-552 | a transaction holds a lock on every bread, order header and detail row that its commit changes |
| `RowLocks.Serialisable` | data/models.go:439-605 | at every point of every interleaving, tables and grants are those of the committed transactions one at a time in commit order, and no row has two owners |
| `RowLocks.SomebodyCanAdvance` | data/models.go:449-470 | as long as a transaction is unfinished, some transaction can take its next lock or commit |
| `RowLocks.RunsAreBounded` | data/models.go:459-553 | every action uses up remaining work, so no run is longer than the work it started with |
| `RowLocks.NoDeadlock` | data/models.go:449-470 | ascending locks: from every reachable state the transactions can go on, and all runs end |
| `RowLocks.UnsortedLocksDeadlock` | data/models.go:449-453 | without the sort, two orders over the same two breads can block each other for ever |
| `InsertLocks.NoDeadlock` | data/models.go:449-470 | with shared foreign-key locks as well: transactions that all take their rows in one order are never stuck, over every run |
| `InsertLocks.StockIsOrdered` | data/models.go:449-453 | the stock transactions take their rows in that order |
| `InsertLocks.InsertsConflictIff` | data/models.go:278-294 | two inserts can be in each other's way exactly if they have the same uuid: locks on common breads are shared |
| `InsertLocks.InsertStockConflictIff` | data/models.go:286-294 | an insert and a stock transaction can be in each other's way exactly if they have a bread in common |
| `InsertLocks.InsertIsOrdered` | data/models.go:286-294 | storing an order does if the buyer listed its breads in ascending order |
| `InsertLocks.OutOfOrderSticks` | data/models.go:286-294 | an insert with two breads out of order and a stock transaction on both can block each other |
| `InsertLocks.InsertIsSafeIff` | data/models.go:286-294 | storing an order never deadlocks with stock transactions, whatever these are, exactly if its breads ascend |
| `InsertLocks.PostIsOrdered` | server/broker_service.go:152-165 | posting a batch takes its rows in order if its order ids ascend |
| `InsertLocks.CrosswisePostsStick` | server/broker_service.go:152-165 | two batches that post the same two orders in opposite orders can block each other |
| `Ingestion.ReportKeeps` | server/broker_service.go:42-69 | under any attempts uuids stay unique, no order is forgotten, and only a new uuid is accepted |
| `Ingestion.AtMostOnce` | broker/main.go:385-420 | from any order table and over any run, with redeliveries and lost replies: no uuid is stored twice, none is buffered twice or if it was stored before, what is buffered is stored, and nothing stored is forgotten |
| `Ingestion.BufferIsFaithful` | broker/matching.go:29-44 | from any state: drained batches one after the other and then the buffer are what was there and then exactly the orders added, and no new batch is empty |
| `Ingestion.FateOfNewOrder` | broker/main.go:398-417 | a new order is stored iff some attempt reaches the insert, with the row given field by field; accepted iff the first such attempt is heard; else a duplicate iff a later one finds it, and else requeued |
| `Ingestion.RedeliveryIff` | server/broker_service.go:42-50 | a stored uuid changes nothing and is answered "duplicate", so acknowledged, exactly if some attempt with a working check is heard; else it is requeued, and never accepted |
| `Ingestion.UnstorableStaysOut` | data/models.go:278-294 | an order the schema refuses is neither stored nor accepted, however often it is retried; unless it is a duplicate it is requeued |
| `Ingestion.StorableIff` | data/models.go:278-294 | what the schema asks of a new order, said of the order as it was sent |
| `Ingestion.StrandedForever` | broker/main.go:405-410 | once a uuid is stored, no later event adds it to the buffer |
| `Outbox.PostStatusesByOrder` | server/broker_service.go:152-165 | a commit gives each order the status of the last result about it and changes nothing else |
| `Outbox.PostingTwiceIsPostingOnce` | server/broker_service.go:152-165 | repeating a batch after a lost confirmation changes no status |
| `Outbox.CommitAccounts` | server/broker_service.go:167-177 | a commit keeps the outbox ledger |
| `Outbox.ClaimAccounts` | data/models.go:1026-1034 | a claim keeps the ledger: the row was unsent and is claimed for the first time |
| `Outbox.DeleteAccounts` | data/models.go:1055-1057 | deleting after a claim keeps the ledger |
| `Outbox.OutboxProtocol` | data/models.go:1015-1063 | over any run no message is claimed twice, every claim was inserted, and inserted = unsent + claimed |
| `Outbox.ClaimedInOrder` | data/models.go:1026-1033 | if batches commit in the order of their timestamps, messages are claimed in the order of creation |
| `Restock.StockStaysInRange` | data/models.go:354-405 | under any interleaving of reads, writes, redeliveries and reservations every quantity stays in 0 to 100 |
| `Restock.WriteForgetsTheMeantime` | data/models.go:363-392 | the write puts the bread where the restock alone would have, whatever happened since the read |
| `Restock.WriteIsAtomicIff` | data/models.go:363-392 | the exact condition on the two quantities for such a restock to count as atomic |
| `Restock.GrantedBreadComesBack` | data/models.go:363-392 | a reservation between read and write is granted and then forgotten by the stock |
| `Restock.RedeliveryCountsTwice` | server/rabbitBakery.go:293-311 | for which quantities of either sign applying a message twice equals applying it once |
| `Restock.HopelessStaysQueued` | server/rabbitBakery.go:302-307 | a message for an unknown bread, or that takes more than 100, is in the queue after every run |
| `Restock.NoMessageIsLost` | server/rabbitBakery.go:293-311 | over any run with failing writes and lost acknowledgements: as many of each message as at the start are queued, held by a listener, or acknowledged after a write |
| `Restock.HandleBreadMade` | server/rabbitBakery.go:293-311 | unreadable: discarded; not applicable: requeued; acknowledged only once stored |
| `CircuitBreakers.CircuitBreaker.constructor` | pkg/resilience/circuit_breaker.go:77-89 | starts closed with no history; settings that are not positive become 5 failures and 30 seconds |
| `CircuitBreakers.CircuitBreaker.Allow` | pkg/resilience/circuit_breaker.go:94-120 | refuses exactly when the history has too many failures, the last one too recent and no probe since, and tells the exact remaining time |
| `CircuitBreakers.CircuitBreaker.RecordSuccess` | pkg/resilience/circuit_breaker.go:124-134 | the fields keep agreeing with what the history of calls says |
| `CircuitBreakers.CircuitBreaker.RecordFailure` | pkg/resilience/circuit_breaker.go:138-163 | the fields keep agreeing with what the history of calls says |
| `CircuitBreakers.CircuitBreaker.GetState` | pkg/resilience/circuit_breaker.go:166-170 | the reported state is the one the history of calls says |
| `CircuitBreakers.FailuresSinceClosing` | pkg/resilience/circuit_breaker.go:124-163 | the count is the number of failures since creation or the latest success that found the breaker half-open |
| `CircuitBreakers.RefusalLeavesNoTrace` | pkg/resilience/circuit_breaker.go:101-107 | after a refusal the next call is granted exactly once the time it was told is over |
| `CircuitBreakers.ProbeDecides` | pkg/resilience/circuit_breaker.go:101-151 | the probe's success closes and forgets all failures, its failure starts a full new timeout |
| `CircuitBreakers.HalfOpenAdmitsEverybody` | pkg/resilience/circuit_breaker.go:109-115 | while half-open any number of calls is let through |
| `CircuitBreakers.ConsecutiveIff` | pkg/resilience/circuit_breaker.go:44-63 | the documented rule of consecutive failures is the implemented one exactly for a threshold of one |
| `CircuitBreakers.StreakIsNoMore` | pkg/resilience/circuit_breaker.go:124-134 | the breaker never opens later than the documented rule would |
| `Retries.Attempt` | pkg/resilience/circuit_breaker.go:205-227 | one pass: blocked by the breaker with its remaining time, or one call and its record; the breaker's history grows by the question and, after a call, by its success or its failure at its time |
| `Retries.Retry` | pkg/resilience/circuit_breaker.go:199-247 | the loop takes the specified steps, ends with the specified outcome, and adds to the breaker's history exactly the events read off steps and turns |
| `Retries.CallsAreGuarded` | pkg/resilience/circuit_breaker.go:203-227 | in every run each call follows one granted Allow and precedes the record of its result; success is returned iff some call succeeded |
| `Retries.HistoryIsSteps` | pkg/resilience/circuit_breaker.go:205-227 | in every run the breaker's history grows by exactly one question per grant or refusal and one success or failure per record |
| `Retries.SuccessCloses` | pkg/resilience/circuit_breaker.go:213-219 | a call that succeeds on an open breaker whose timeout is over, or on a half-open one, leaves it closed with no failures |
| `Retries.EveryRunEndsProperly` | pkg/resilience/circuit_breaker.go:199-247 | for every run: how many calls and pauses it took, which of them failed or were cancelled, and exactly what each outcome says about the last turn and the breaker |
| `Retries.FailingCalls` | pkg/resilience/circuit_breaker.go:203-247 | if all fails, with pauses below the timeout and the breaker in any state: exactly min(attempts, tolerated) calls, where closed tolerates threshold - count, refusing none, and otherwise one probe; and the breaker-open error with its remaining time iff attempts are left |
| `Retries.FailingCallsUnguarded` | pkg/resilience/circuit_breaker.go:203-247 | without a breaker all attempts are used up |
| `Retries.PausesAreDelays` | pkg/resilience/circuit_breaker.go:229-243 | the pauses of any run are the successive delays without gaps |
| `Retries.Backoff` | pkg/resilience/circuit_breaker.go:201-242 | for any multiplier of at least 1 delay i is what it would be without a maximum, capped, except the first, which is the base, capped or not |
| `Retries.UncappedGrowth` | pkg/resilience/circuit_breaker.go:239 | uncapped, delay i is at most base * m^i, and less by at most the fractions cut off on the way |
| `Retries.WholeGrowth` | pkg/resilience/circuit_breaker.go:239 | for a whole multiplier it is exactly base * m^i |
| `Retries.BackoffShrinks` | pkg/resilience/circuit_breaker.go:239-242 | for a multiplier of at most 1 the delays shrink after the first retry and the cap plays no part any more |
| `Retries.CapHoldsIff` | pkg/resilience/circuit_breaker.go:201-242 | every pause of every run respects the maximum exactly when the base delay does |
| `RateLimits.TokenBucket.constructor` | pkg/resilience/circuit_breaker.go:264-271 | a new bucket is full |
| `RateLimits.TokenBucket.Allow` | pkg/resilience/circuit_breaker.go:274-291 | refills for the elapsed time up to the burst, then takes one token if there is one |
| `RateLimits.RateLimiter.constructor` | pkg/resilience/circuit_breaker.go:304-310 | starts without buckets |
| `RateLimits.RateLimiter.Allow` | pkg/resilience/circuit_breaker.go:313-322 | serves from the identity's own bucket, created full on first use, and touches no other |
| `RateLimits.RefilledTwice` | pkg/resilience/circuit_breaker.go:278-284 | refilling at t1 and then at t2 equals refilling once at t2 |
| `RateLimits.LevelInRange` | pkg/resilience/circuit_breaker.go:278-289 | after any calls the tokens are between 0 and the burst |
| `RateLimits.RateBound` | pkg/resilience/circuit_breaker.go:274-291 | in any window of length T at most burst + rate * T calls are allowed |
| `RateLimits.NothingBelowOne` | pkg/resilience/circuit_breaker.go:281-290 | a burst below one allows nothing, ever |
| `RateLimits.FullBurst` | pkg/resilience/circuit_breaker.go:264-291 | the bound is reached: of simultaneous calls on a full bucket exactly the first burst are allowed |
| `RateLimits.DeniedCallLeavesNoTrace` | pkg/resilience/circuit_breaker.go:278-290 | leaving out a denied call changes no later answer and no later level |
| `RateLimits.AllowedAgainIff` | pkg/resilience/circuit_breaker.go:278-290 | a denied caller is allowed again exactly once the missing fraction has come in, given a burst of at least 1 |
| `RateLimits.WaitingEnds` | pkg/resilience/circuit_breaker.go:279-280 | with a positive rate that is after exactly missing / rate seconds |
| `RateLimits.TableIsOwnLevels` | pkg/resilience/circuit_breaker.go:313-322 | after any interleaved calls each identity's bucket is that of its own calls alone |
| `RateLimits.Isolation` | pkg/resilience/circuit_breaker.go:313-322 | every answer is that of a bucket which only its own identity ever used |
| `RateLimits.IdentityRateBound` | pkg/resilience/circuit_breaker.go:313-322 | in any window of any interleaved traffic each identity is allowed at most burst + rate * T |
| `Settlement.SettlementDispatcher.Register` | server/settlement_dispatcher.go:167-180 | closes and replaces an earlier waiter, and hands out a fresh open channel |
| `Settlement.SettlementDispatcher.Unregister` | server/settlement_dispatcher.go:183-192 | closes and removes whoever waits for the uuid now |
| `Settlement.SettlementDispatcher.TryDeliver` | server/settlement_dispatcher.go:146-158 | one turn of the loop: lookup under the lock, then the flag, then the send to the channel that was looked up, with others at work in between |
| `Settlement.SettlementDispatcher.Deliver` | server/settlement_dispatcher.go:144-163 | the bounded loop of such turns, with anything happening during the sleeps |
| `Settlement.SettlementDispatcher.RouteAndAck` | server/settlement_dispatcher.go:105-138 | a publish result with a uuid is routed, else the plain order, and what is neither is discarded; routed: handed over, and then held by the waiting channel, iff the first turn that is not idle does so; fatal iff that turn does not; acknowledged and lost iff every turn is idle |
| `Settlement.After` | server/settlement_dispatcher.go:144-192 | over all runs: mapped channels are open and their own uuid's, a channel is closed at most once and exactly if unmapped, and holds at most one order, with its uuid |
| `Settlement.WaitsIff` | server/settlement_dispatcher.go:167-192 | somebody waits for a uuid exactly if it was registered and not unregistered since |
| `Settlement.StreamIsFoundIff` | server/settlement_dispatcher.go:167-192 | a stream's channel keeps being found exactly as long as nobody registers or unregisters its uuid |
| `Settlement.SplitSendFailsIff` | server/settlement_dispatcher.go:147-158 | the loop sends to a closed channel exactly if nobody touched the uuid between lookup and flag check, but somebody did between check and send |
| `Settlement.TriedIff` | server/settlement_dispatcher.go:146-160 | exactly when a turn misses, is fatal, finds the slot full or hands the order over, from what the others do; only the last changes the board beyond that, as one atomic attempt at the moment of the send |
| `Settlement.FirstSettlementIsKept` | server/settlement_dispatcher.go:152-158 | a stream left alone finds the first settlement of its order, and duplicates do not replace it |
| `Settlement.DeliveryIff` | server/settlement_dispatcher.go:144-163 | the loop ends early exactly if one of its turns before the deadline is not idle, and has then done what the first such turn does: at most one order is handed over |
| `Settlement.DeliveredIff` | server/settlement_dispatcher.go:144-163 | a settlement is handed over exactly if in the first turn that is not idle somebody waits undisturbed from look to send with an empty slot; otherwise that turn is fatal |
| `Settlement.SentIsHeld` | server/settlement_dispatcher.go:152-158 | an order that was sent lies in the channel of whoever waits for its uuid |
| `Settlement.LostIff` | server/settlement_dispatcher.go:34-38 | a settlement is lost exactly if every turn before the deadline is idle: nobody waits, or somebody touches the uuid before the check, or the slot of an undisturbed waiter is full |
| `Settlement.LateStreamGetsNothing` | server/settlement_dispatcher.go:34-38 | a stream that registers as the window closes: its settlement is gone and it waits with an empty slot |

## Left out

- RabbitMQ, gRPC and SQL plumbing: connections, reconnect loops, timeouts, prefetch, `SKIP LOCKED` between
  concurrent pollers (a claim is one atomic step), and commits whose outcome the server itself does not learn.
- Publishing to `bread-bought` from the matching engine and the JSON form of payloads; a message body enters
  as what it reads as.
- `matchingItemsToDataOrderItems` and `matchingResultToPayload`: field-by-field copies.
- `Stop`, the goroutines around the broker, and the loss of the in-memory buffer in a crash; the claims about
  orders are safety claims.
- `WaitForOrderNotification` and the fallback lookup of settled orders: they look for capitalised statuses
  that the matching engine never writes, so there is no delivery guarantee to prove through them.
- Authentication, authorisation, invoices, the admin and maker services, the frontend; administrators who set
  arbitrary quantities are not part of the runs.
- Floating point: rounding, NaN bids and the overflow of 64-bit sums; sums and products are exact.
- `sort.Slice` beyond short slices: `Sorting.SortDeterminedIff` says when its algorithm cannot matter.
- Retries: other goroutines that use the same breaker during one `Retry`, and the number of attempts of the
  broker's three calls, which is left open.
- RateBound: asks for a rate of at least 0 and a bucket between 0 and its burst, which every bucket is with a burst of
  at least 0; a burst below 1 is covered by `RateLimits.NothingBelowOne`.
- RunConserves: restocks fall between batches and are atomic there; `Interleaving.InterleavingConserves` has
  them anywhere, in two statements.
- Serialisable: covers the two stock transactions. Orders being stored and batches being posted are in
  `InsertLocks`, which has their locks but not their writes.
- CrosswisePostsStick: batches that share no order cannot block each other whatever their order; that is not stated.
- TryDeliver: setting a waiter's flag and closing its channel count as one step, so that a flag read between
  the two is taken for a read after both; the source then sends nothing, as in the model.
- Backoff: negative multipliers and negative maxima, for which the pauses mean nothing.
- ProcessedIsHonestIff: orders whose quantities or bread ids change in the 32-bit request; `StatusMeansItems`
  covers those without negative quantities.
- AgreeIff: orders that do not fit the 32-bit wire, or that name a bread twice or one that does not exist,
  which the schema refuses to store.
- StoredStatusMeansStock: with negative quantities, only when the order is stored as rejected.
- TransactionLeaves: lines with negative quantities, which may add to the stock; `SameStockIff` has them.
