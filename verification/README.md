# A verified model of the exchange and its trading client

The system is a small electronic market: an exchange keeps one limit order book per symbol, publishes numbered
market data with periodic snapshots over lossy multicast, and a trading client rebuilds the books from it, keeps
its positions, checks its risk and manages one order per side of each symbol. This project models that path in
Dafny and proves what the parts promise, alone and together.

**Matching core.** `MemPool.dfy`, `PriceLevels.dfy` and `BookCore.dfy` are the mutable structures: the pool with
its intrusive free list, 16384 price slots per side with linked FIFO queues, the two-level occupancy bitmap and the
cached best tick, the (client, order id) table, and the nested matching loops. Each method is proved to do what the
value-level book of `BookSpec.dfy` does; `BookFacts.dfy` proves price-time priority and the invariants about that
book, `BookLaws.dfy` says what each request comes to in prices, quantities and messages alone, without the operations
of the book, `BookStream.dfy`, `BookLedger.dfy` and `BookIndex.dfy` what it tells the market, the clients and the index,
and `ExchangeRuns.dfy` and `BookReports.dfy` state this over every run of every symbol. `HalfBook.dfy` is one side as a
value, `LevelStore.dfy` the pure facts about linked nodes, `Words.dfy` 64-bit words, `PriceBand.dfy` the tick grid.

**Replication.** `Market.dfy` says what a stream of updates amounts to. `Snapshot.dfy` and `SnapshotSynthesizer.dfy`
are the publishing side, `SynthesizerCapacity.dfy` says exactly when its pool of messages is large enough,
`ConsumerSpec.dfy` and `MarketDataConsumer.dfy` the recovering consumer, and
`Replication.dfy` the protocol as a state machine with arbitrary loss, duplication and, for incrementals,
reordering. `Forwarding.dfy` says which updates the consumer passes on, one by one, and what it keeps meanwhile.
`MirrorSpec.dfy` and `MirrorFacts.dfy` are the client's book as a value; `Rings.dfy`, `MirrorStore.dfy` and
`MarketOrderBook.dfy` are the circular lists, pools and index arrays that hold it. `EndToEnd.dfy` joins exchange,
protocol and mirror: outside recovery the mirror is the market at the consumer's number, and lists the exchange's
orders in the order in which they will trade.

**Client orders.** `ClientOrders.dfy` and `OrderManager.dfy` are the order state machine, the quotes and the risk
check, `PositionKeeper.dfy` the incremental position and profit. `OrderProtocol.dfy` runs the client against the
verified book over asynchronous channels, with requests that may overtake each other and responses in order.
`OrderHistory.dfy` shows that the client's record is what it was told and asked for.

**Queue.** `QueueCapacity.dfy`, `QueueProtocol.dfy` and `LFQueue.dfy` are the single-producer single-consumer ring:
its word arithmetic, its two threads as interleaved atomic steps, and the object.

## Conventions

- Pointers into a pool are slot indices and `NULL` is -1. Integers are unbounded; the 32-bit quantity sums, the
  32-bit tick conversion and the 64-bit queue indices are wrapped where the code wraps them. Doubles are reals.
- The assertions of the code are preconditions, or, in `AddToSnapshot`, the result `ok`. On the exchange's stream all
  but one of the latter always hold. The synthesizer's pool of messages is shared by all symbols while ids are counted
  per symbol, so it can run out: `SynthesizerRuns.SynthesizerNeverFails` gives the exact condition, at most
  `kMaxOrderIds` orders resting on all symbols together after every request, and `SynthesizerRuns.SynthesizerCanFail`
  a run that breaks it.
- Inputs of `BookCore` obey the contract in its header (exchange/matcher/book_core.h:50-56). `Add` also needs a slot for
  an order that rests, exactly when the assertion of the order pool does (`FindsRoom`). The market data side indexes
  arrays by market order id: the claims about its stream let each book take fewer than `kMaxOrderIds` new orders, and
  any number of cancels.
- The code does not check that a client avoids reusing the id of one of its resting orders. Only the claims that the
  index finds every order of a client assume it, and of that client alone (`FreshKeys`, `KeyIsFree`); that the index
  never dangles does not. What reuse leads to is `ExchangeRuns.ReuseLosesOrder`.
- The publisher hands the n-th update to both consumers under number n, as one step; the code copies the update
  for the synthesizer after it released the slot (exchange/market_data/market_data_publisher.cc:70-75).
- An acquire or release access to an index of the queue is one atomic step.
- `MarketDataConsumer` is modelled from the decoded message on; the callback's byte buffer is a sequence of packets.
- In `OrderProtocol` a quote that sends a new order finds an order id left, as the client asserts, and has a price of
  the band, which is what `BookCore` demands. The client's own band test does not ensure the latter, because the tick is
  cut to 32 bits: `ClientOrders.BandTestIsExact` says exactly which prices get through, `BandTestLeaks` names one, and
  below 2^31 the test is the band (`BandTestBelow`). A quote that cancels or sends nothing may have any price.

## Model

| member | source | states |
|---|---|---|
| MemPools.MemPool.Allocate | common/mem_pool.h:47-64 | the slot handed out held no live object; a recycled slot goes first, else the cursor moves by one; nothing else changes |
| MemPools.MemPool.Deallocate | common/mem_pool.h:67-74 | a live slot becomes the head of the acyclic free list; the cursor stays |
| MemPools.InUseCountsLiveSlots | common/mem_pool.h:96-98 | `in_use` is the number of live slots, and the slots below the cursor split into the free list and the live ones |
| MemPools.MemPool.Available | common/mem_pool.h:96-98 | the capacity less the live slots; zero exactly when the pool is exhausted |
| MemPools.MemPool.HighWater | common/mem_pool.h:100-103 | the cursor is the largest number of objects ever in use at once |
| PriceBands.TickOfPrice | exchange/matcher/price_levels.h:54-64 | price to tick undoes tick to price on the whole grid of a valid band, without overflow |
| PriceLevelArrays.PriceLevels.AddOrder | exchange/matcher/price_levels.cc:47-84 | the side becomes the side with the order behind all others at its price; links, aggregate, bitmap and best tick agree again |
| PriceLevelArrays.PriceLevels.ApplyFill | exchange/matcher/price_levels.cc:86-94 | order and aggregate lose the same quantity and nothing else changes |
| PriceLevelArrays.PriceLevels.RemoveOrder | exchange/matcher/price_levels.cc:96-131 | the order leaves its queue and its node returns to the pool; an emptied level resets and the best tick is that of the rest |
| PriceLevelArrays.PriceLevels.MarkOccupied | exchange/matcher/price_levels.cc:133-138 | exactly one digit of the bitmap is added and the summary stays in agreement |
| PriceLevelArrays.PriceLevels.ClearOccupied | exchange/matcher/price_levels.cc:140-148 | exactly one digit of the bitmap is cleared and the summary stays in agreement |
| PriceLevelArrays.PriceLevels.FindBestTick | exchange/matcher/price_levels.cc:150-185 | the highest (buy) or lowest (sell) occupied tick of the whole bitmap, or invalid exactly when none is occupied |
| PriceLevelArrays.BestIsFirst | exchange/matcher/price_levels.h:174-176 | the best occupied tick is the tick of the first order in price-time order |
| HalfBooks.InsertWellFormed | exchange/matcher/price_levels.cc:67-73 | queueing keeps price-time order, priorities strictly increase along a level and stay below its counter |
| HalfBooks.RemoveWellFormed | exchange/matcher/price_levels.cc:115-127 | removing keeps price-time order, and an emptied level's counter is 1 again |
| BookCores.BookCore.LevelTotalFits | exchange/matcher/price_levels.h:140-142 | the stored aggregate of every level stays below 2^52 |
| BookFacts.MatchIsPriceTime | exchange/matcher/book_core.cc:127-216 | the makers filled are a prefix in price-time order, at most one is partly filled, the rest are untouched; the four messages of fill i, field by field, carry the price of maker i |
| BookFacts.PriceTimeIsUnique | exchange/matcher/book_core.cc:132-155 | price-time priority determines how far the taker gets and what remains |
| BookFacts.NothingCrosses | exchange/matcher/book_core.cc:133-143 | a taker with quantity left no longer crosses any maker |
| BookFacts.StepKeeps | exchange/matcher/book_core.cc:39-119 | every request keeps the book uncrossed, quantities positive, ids increasing along levels, and the index free of dangling entries |
| BookCores.BookCore.FindOrder | exchange/matcher/book_core.cc:218-222 | null exactly when the index has no entry for the client and id, and else the live node that stores the resting order with that key and the indexed market order id |
| BookCores.BookCore.IndexOrder | exchange/matcher/book_core.cc:225-234 | exactly one entry of the table changes |
| BookCores.BookCore.UnindexOrder | exchange/matcher/book_core.cc:236-242 | exactly one entry of the table goes |
| BookCores.BookCore.Match | exchange/matcher/book_core.cc:127-216 | the nested loops end, and leave the side, the index and the messages of the recursive price-time matching: makers are filled in order exactly as far as the price of the limit and the quantity allow, at their own prices |
| BookCores.BookCore.Add | exchange/matcher/book_core.cc:39-78 | accept, match, rest the remainder: the new book and every message are those of the value-level step and obey the law of `NewIsHonoured`, and all redundant structures agree again; asked for is only that the order, if it rests, finds a slot |
| BookCores.BookCore.RoomBefore | common/mem_pool.h:55-58 | a slot left before the call is room enough, whatever the order fills |
| BookCores.BookCore.Cancel | exchange/matcher/book_core.cc:80-119 | the indexed order is withdrawn with its side and price recovered from its level, or the cancel is rejected and nothing changes; every field of the report and the update is stated |
| BookLaws.NewIsHonoured | exchange/matcher/book_core.cc:39-78 | any book, any new order, from the price asked for: makers at that price or better are filled in price-time order as far as the quantity goes, and with quantity left none of them remains; the rest queues at that price, behind its equals, under the next id; each message is stated field by field, an ADD at the price asked for last |
| BookLaws.MatchIsHonoured | exchange/matcher/book_core.cc:127-216 | the same of the matching alone, with the price of the limit tick |
| BookLaws.CancelIsHonoured | exchange/matcher/book_core.cc:80-119 | any book: the order the index leads to goes, reported at its own price with what it had left; without one the cancel is rejected and the book stays |
| BookReports.EveryReportIsFair | exchange/matcher/book_core.cc:44-53 | over any run: market order id m belongs to the m-th new order; every report names its client, id, side and symbol; it is accepted, rests and is cancelled at the price asked for and never executed at a worse one |
| BookReports.TradesAgree | exchange/matcher/book_core.cc:162-191 | over any run: executions come in pairs, and pair i agrees with trade i in price, quantity, symbol and sides, the resting order being the older one |
| BookStreams.StepStream | exchange/matcher/book_core.cc:64-77 | the updates of one request make sense one after the other, show no crossed market at any point, and lead from one book to the next |
| BookLedgers.StepConserves | exchange/matcher/book_core.cc:157-182 | one request neither creates nor loses quantity |
| BookLedgers.StepLawful | exchange/matcher/book_core.cc:44-53 | every report is a lawful next event in the life of its order, and the lives follow the book |
| BookIndexes.CancelIsHonoured | exchange/matcher/book_core.cc:80-118 | with an index complete for a client the cancel of any of its resting orders removes exactly that order |
| BookIndexes.CancelRejected | exchange/matcher/book_core.cc:81-95 | a cancel is rejected if and only if the index has no entry, and else withdraws an order with that key; with an index complete for the client, if and only if no such order rests |
| BookIndexes.RestComplete | exchange/matcher/book_core.cc:225-234 | resting an order keeps the index complete for a client if and only if the order is another client's or no resting order has its key |
| BookIndexes.StepComplete | exchange/matcher/book_core.cc:203-204 | the index keeps finding every resting order of a client as long as its own new orders bring free keys |
| ExchangeRuns.QuantityIsConserved | exchange/matcher/book_core.cc:102-106 | over any run: accepted = 2 x traded + cancelled + resting |
| ExchangeRuns.EveryLifeIsLawful | exchange/matcher/book_core.cc:162-182 | over any run: per order one ACCEPTED, fills that add up, at most one CANCELED, nothing afterwards |
| ExchangeRuns.EveryOrderIsFound | exchange/matcher/book_core.cc:218-242 | over any run in which a client does not reuse its live ids, a cancel reaches each of its resting orders, whatever the others do |
| ExchangeRuns.ReuseLosesOrder | exchange/matcher/book_core.cc:225-242 | any new order sent twice: the index no longer finds both, and after one cancel an order rests that no cancel reaches |
| ExchangeRuns.StreamIsComplete | exchange/matcher/book_core.cc:184-211 | over any run of all symbols: replaying the updates rebuilds exactly the resting orders, and no prefix shows a crossed market |
| Snapshots.SnapshotReplay | exchange/market_data/snapshot_synthesizer.cc:129-153 | whatever was known before, replaying a snapshot yields the market it was taken of, through uncrossed markets only |
| Snapshots.SnapshotContents | exchange/market_data/snapshot_synthesizer.cc:112-168 | between its markers, which carry the anchor, a snapshot has for each symbol one CLEAR and then, by increasing id, each live order once as it is, and nothing else |
| SnapshotSynthesizers.SnapshotSynthesizer.AddToSnapshot | exchange/market_data/snapshot_synthesizer.cc:66-109 | the pool and the slot table hold the stored messages after one more; the assertions, the exhausted pool included, hold exactly when the message is acceptable |
| SnapshotSynthesizers.SnapshotSynthesizer.PublishSnapshot | exchange/market_data/snapshot_synthesizer.cc:112-173 | the packets sent are the numbered snapshot of the pictured market at the last number absorbed |
| MarketDataConsumers.MarketDataConsumer.StartSnapshotSync | trading/market_data/market_data_consumer.cpp:38-46 | both queues are empty when a recovery starts |
| MarketDataConsumers.MarketDataConsumer.CheckSnapshotSync | trading/market_data/market_data_consumer.cpp:49-161 | the loops over both queues do what the splice of the longest gap-free runs does, in each of its outcomes |
| MarketDataConsumers.MarketDataConsumer.QueueMessage | trading/market_data/market_data_consumer.cpp:164-183 | a repeated or first snapshot number restarts the queue; then recovery is attempted |
| MarketDataConsumers.MarketDataConsumer.RecvCallback | trading/market_data/market_data_consumer.cpp:186-243 | the state after a buffer of packets is the specification's after the same packets; outside recovery the next incremental is forwarded and counted, one from beyond starts a recovery with itself alone, others and snapshots change nothing, and a buffer without a jump is forwarded without its repetitions |
| ConsumerSpecs.LiveReceive | trading/market_data/market_data_consumer.cpp:210-237 | what one packet does outside recovery, in its three cases |
| Forwardings.LosslessIsLive | trading/market_data/market_data_consumer.cpp:226-236 | any schedule without a gap, repetitions and snapshots allowed: there is no recovery, 1 to n are forwarded as they are and in order, and n + 1 is next |
| Forwardings.GapStartsRecovery | trading/market_data/market_data_consumer.cpp:210-224 | the first gap starts a recovery that holds the incremental it was seen by and nothing else |
| Forwardings.RecoveryKeepsAll | trading/market_data/market_data_consumer.cpp:164-183 | in every state of a recovery the queued incrementals are exactly those that arrived since it started, and nothing has been forwarded meanwhile |
| Forwardings.ForwardedIsTold | trading/market_data/market_data_consumer.cpp:107-158 | in every state what was forwarded is, update by update, a succession of next incrementals and of whole snapshots with all incrementals after their anchor, trades included, each going on beyond the one before |
| Replications.WholeSnapshot | trading/market_data/market_data_consumer.cpp:65-105 | a queue that ends under the number it started with is the complete snapshot of one anchor, even when its packets come from several cycles |
| Replications.Reachable | trading/market_data/market_data_consumer.cpp:165-175 | in every reachable state the snapshot queue is a gap-free beginning with non-decreasing anchors and the queued incrementals are true ones |
| Replications.RecoveryIsExact | trading/market_data/market_data_consumer.cpp:107-158 | outside recovery, what was forwarded amounts, for all symbols, to the incrementals before the next expected one |
| Replications.ForwardedIsSound | trading/market_data/market_data_consumer.cpp:210-237 | in every state, what was forwarded can be followed by a mirror through uncrossed markets |
| Replications.RecoveryAdvances | trading/market_data/market_data_consumer.cpp:109-136 | a completed recovery leaves the next expected number strictly above the one at which the gap was found |
| Replications.RecoveryCompletes | trading/market_data/market_data_consumer.cpp:107-158 | the packets of one cycle arrive in order, with any incrementals and anything else between them: its last packet ends the recovery if and only if the incrementals queued by then have no hole above its anchor; the next expected number is then the first one missing above the anchor |
| Replications.WholeCycleSuffices | trading/market_data/market_data_consumer.cpp:164-183 | from any state in recovery, a cycle delivered in one go ends it under that condition on what is queued already |
| MarketOrderBooks.MarketOrderBook.FindPlace | trading/strategy/market_order_book.h:119-132 | the search round the ring ends at the sorted position, in the single-level, wrap-around and new-best cases |
| MarketOrderBooks.MarketOrderBook.AddOrdersAtPrice | trading/strategy/market_order_book.h:111-157 | the level takes its place among the sorted prices, its ring stays circular, the head is the best level |
| MarketOrderBooks.MarketOrderBook.RemoveOrdersAtPrice | trading/strategy/market_order_book.h:160-180 | the level leaves its ring, its index slot and the pool, and the head moves on if it was the best |
| MarketOrderBooks.MarketOrderBook.AddOrder | trading/strategy/market_order_book.h:206-224 | the order is last on the ring of its price, and a price without a level gets one |
| MarketOrderBooks.MarketOrderBook.RemoveOrder | trading/strategy/market_order_book.h:183-203 | the order leaves ring, index and pool; its level finds a new first order or goes with it |
| MarketOrderBooks.MarketOrderBook.UpdateBBO | trading/strategy/market_order_book.h:28-54 | a refreshed side shows its best price and the 32-bit total of that level's ring, or zeros; the other side is left |
| MarketOrderBooks.MarketOrderBook.Clear | trading/strategy/market_order_book.cpp:56-83 | every order and every level returns to its pool exactly once: both pools end with nothing in use |
| MarketOrderBooks.MarketOrderBook.OnMarketUpdate | trading/strategy/market_order_book.cpp:24-100 | rings, indexes and pools hold the mirror after the update, and the best bid and offer are those of the whole book |
| MirrorFacts.ApplyKeeps | trading/strategy/market_order_book.cpp:30-50 | every acceptable update keeps prices sorted, queues non-empty in id order, and no price on both sides |
| MirrorFacts.UntouchedTop | trading/strategy/market_order_book.cpp:25-28 | when the test before the update says a side need not be refreshed, its best price and total did not change |
| MirrorFacts.AddAcceptable | trading/strategy/market_order_book.h:101-112 | on an uncrossed stream no slot of the shared price index is ever wanted by both sides |
| MirrorStores.LevelsFit | trading/strategy/market_order_book.cpp:10 | a price without a level implies room in the level pool, so it never runs out |
| MirrorFacts.MirrorFollowsStream | trading/strategy/market_order_book.cpp:30-89 | every sound stream can be taken in update by update, and the mirror then shows what the stream amounts to |
| SynthesizerRuns.SynthesizerPictures | exchange/market_data/snapshot_synthesizer.cc:66-109 | on any run of the exchange and for any prefix of its stream, as long as no assertion has fired the stored messages picture the market |
| SynthesizerRuns.SynthesizerNeverFails | exchange/market_data/snapshot_synthesizer.cc:66-85 | on any run of the exchange no assertion of the synthesizer fires if and only if after every request at most `kMaxOrderIds` orders rest on all symbols together |
| SynthesizerRuns.SynthesizerCanFail | common/mem_pool.h:55-58 | a run of two symbols within every stated limit on which the pool of messages is exhausted |
| EndToEnd.ExchangeCanPublish | exchange/market_data/market_data_publisher.cc:54-78 | whatever part of a run's stream has been published, the next update of the run can be: the runs of the exchange are schedules of the protocol |
| EndToEnd.MirrorListsBook | exchange/matcher/book_core.h:102-105 | because ids increase along levels, a mirror that shows the market lists the book's orders in trading order |
| EndToEnd.MirrorIsMarket | trading/market_data/market_data_consumer.cpp:210-237 | any run, any schedule, every number outside recovery, inside the updates of one request too: the mirror's prices are sorted, its queues are the live orders of the market at that number in id order, and its best bid and offer are the market's |
| MirrorFacts.MirrorIsDetermined | trading/strategy/market_order_book.cpp:30-89 | a stream leaves one mirror only |
| EndToEnd.MirrorIsBook | trading/market_data/market_data_consumer.cpp:210-237 | any run, any schedule: outside recovery the mirror lists the exchange's book at the consumer's number, queue order included, and its best bid and offer are the book's |
| ClientOrders.BandTestIsExact | trading/strategy/order_manager.h:78-83 | the prices the client's band test lets through: those of the band, and exactly those above whose tick wraps below the end of the grid |
| ClientOrders.BandTestLeaks | trading/strategy/order_manager.h:79-81 | a price outside the band that the test lets through |
| ClientOrders.CheckPreTradeRisk | trading/strategy/risk_manager.h:49-59 | a quote is allowed if and only if its size is in range, the loss is not too large and the position would stay within the limit on both sides; too large a size, then too large a position, is named first |
| ClientOrders.SettleAfterCancel | trading/strategy/order_manager.h:84-91 | asking for a cancel while executions are on their way ends as cancelled-to-be, or dead if they complete the order |
| ClientOrders.DeadStaysDead | trading/strategy/order_manager.h:58-61 | only rejected cancels can still come for a dead order, and they leave it dead |
| OrderManagers.OrderManager.OnOrderUpdate | trading/strategy/order_manager.h:27-66 | the order found by id in the symbol's two entries becomes live, dead or smaller as its response says, a reply about no current order changes nothing |
| OrderManagers.OrderManager.MoveOrder | trading/strategy/order_manager.h:76-117 | an order live afterwards has the terms quoted; a cancel is sent if and only if the order was live with other terms, or none are quoted; a new order, with exactly the terms quoted, if and only if there was none, the price passes and the risk check allows it; a pending order is left |
| ClientOrders.MoveIsLawful | trading/strategy/order_manager.h:84-116 | the law of a quote, for an order in any state |
| OrderManagers.OrderManager.MoveOrders | trading/strategy/order_manager.h:123-137 | both sides are quoted under the same law, bid first, with consecutive order ids |
| OrderManagers.OrderManager.NewOrder | trading/strategy/order_manager.cpp:7-20 | one request under the next id, remembered as pending |
| OrderManagers.OrderManager.CancelOrder | trading/strategy/order_manager.cpp:23-35 | one cancel request for the order, which then waits for it |
| OrderManagers.TradeEngine.constructor | trading/strategy/trade_engine.cpp:14-15 | the position kept for a symbol is the very one its risk check reads, and no two symbols share one |
| OrderManagers.TradeEngine.OnOrderUpdate | trading/strategy/trade_engine.cpp:152-166 | an execution changes the position, which the risk check sees at once, and then its order; other symbols are left alone |
| OrderProtocols.PositionLimitHolds | trading/strategy/risk_manager.h:49-59 | every interleaving: the client's position and the true one, with undelivered fills, stay within the limit, and would if what rests on a side were filled now |
| OrderProtocols.OneWorkingOrder | trading/strategy/order_manager.h:84-116 | every interleaving: what a side has at the exchange is the client's current order alone - on its way, with the client's terms and quantity and no execution; or resting, at the client's price, with the client's quantity less undelivered executions; or neither, and then what is queued executes or cancels all of it |
| OrderHistories.StateIsHistory | trading/strategy/order_manager.h:40-65 | every interleaving: an order is pending until its ACCEPTED is delivered, live from then until the client asks for its cancel, then pending cancel, and dead exactly when a CANCELED or the execution of its last unit was delivered; its quantity is what was sent less the executions delivered |
| OrderHistories.CancelIsPending | trading/strategy/order_manager.h:84-91 | every interleaving: an order waiting for its cancel has the cancel on its way, or the answer or its last execution queued |
| OrderProtocols.DeadIsGone | trading/strategy/order_manager.h:93-104 | a dead or unused order has nothing resting, nothing on its way and nothing left to be reported |
| OrderProtocols.RejectionIsLate | trading/strategy/order_manager.h:40-61 | a rejected cancel never changes the record, and any other response is about the current order of its side |
| PositionKeepers.PositionInfo.AddFill | trading/strategy/position_keeper.h:42-83 | after any fill, flips included, total profit is cash flow plus position times last price, the open side carries its average cost and the other none, and a flat position has realised its cash flow; adding realises nothing, reducing keeps the average and realises the difference to it per unit, a flip realises the whole and opens at its own price |
| PositionKeepers.PositionInfo.UpdateBBO | trading/strategy/position_keeper.h:86-110 | an open position is valued at the mid price exactly when both sides have quantity, and total profit stays that of the ledger |
| PositionKeepers.FillIsLawful | trading/strategy/position_keeper.h:49-61 | books that agree with the ledger obey that law of costs and realised profit, in all three cases |
| PositionKeepers.AverageWithinPrices | trading/strategy/position_keeper.h:49-61 | over any fills, the average price of the open position stays within the prices traded |
| QueueCapacities.RoundUpToPowerOf2 | common/ringBuffer.h:111-126 | the least power of two not below the argument, and 0 exactly above 2^63, where the increment wraps |
| QueueCapacities.MaskIsRemainder | common/ringBuffer.h:26 | masking with the capacity less one is the remainder |
| QueueProtocols.FullTestIsExact | common/ringBuffer.h:28-34 | the masked full test is the exact one for any stale read index and any wrap of the counters |
| QueueProtocols.EmptyTestIsExact | common/ringBuffer.h:65-70 | the empty test is exact for any stale write index |
| QueueProtocols.StepKeeps | common/ringBuffer.h:24-86 | each atomic step of either thread keeps counts, private copies and stored values in agreement |
| QueueProtocols.FifoAlways | common/ringBuffer.h:24-86 | every interleaving: consumed is a prefix of published, no published unreleased slot is handed out for writing, the slot read holds the oldest value |
| QueueProtocols.AnswersAreTrue | common/ringBuffer.h:34-41 | null means truly full, or empty, at the reload |
| QueueProtocols.SizeIsTrue | common/ringBuffer.h:88-94 | loading the read index first, the size never underflows, whatever happens between the loads |
| LFQueues.LFQueue.constructor | common/ringBuffer.h:19-22 | the capacity is the least power of two that suffices, and the queue is empty; above 2^63 elements there is no slot at all |
| LFQueues.LFQueue.TryGetNextToWriteTo | common/ringBuffer.h:24-44 | a slot that holds no waiting value, or null exactly when capacity - 1 values wait |
| LFQueues.LFQueue.UpdateWriteIndex | common/ringBuffer.h:57-60 | the value in the slot handed out is published |
| LFQueues.LFQueue.GetNextToRead | common/ringBuffer.h:64-81 | the slot of the oldest value not consumed, or null exactly when there is none |
| LFQueues.LFQueue.UpdateReadIndex | common/ringBuffer.h:83-86 | the oldest value counts as consumed |
| LFQueues.LFQueue.Size | common/ringBuffer.h:88-94 | the number of values that wait |

## Left out

- Sockets, multicast membership, TCP framing, byte buffers, thread creation and pinning: replaced by channels that
  lose, repeat and reorder as stated in `Replication.dfy` and `OrderProtocol.dfy`.
- Logging, timing macros, `toString` functions and time strings: they do not change the state.
- Weak memory: acquire and release accesses are single steps of a sequentially consistent interleaving.
- `GetNextToWriteTo` of the queue: its spin loop ends only if the other thread runs.
- `Warmup`, alignment and struct packing: performance only. `MarkSlot` of the pool is the tag of each slot.
- The strategies (`FeatureEngine`, `MarketMaker`, `LiquidityTaker`): floating-point heuristics, here any quotes.
- The callbacks of the client's order book into the trade engine: what they reach is `PositionInfo.UpdateBBO`, modelled
  on its own, and the strategies.
- The RANDOM mode of the trading program, which sends requests without the order manager.
- Responses of type `INVALID`, which every handler ignores, are not in the response type.
- Snapshot packets that arrive out of sending order: the anchor check alone does not tell cycles apart then.
- `trading/strategy/position_keeper.h` rounding: doubles are reals, and 64-bit positions do not overflow.
- OrderProtocols.PositionLimitHolds: takes quotes that send a new order to have a price of the band, because the
  client's test lets others through that break the contract of `BookCore::Add`.
- OrderProtocols.OneWorkingOrder: under the same condition, as are DeadIsGone, RejectionIsLate, StateIsHistory and
  CancelIsPending.
- Replications.RecoveryIsExact: the consumer's sequence numbers are unbounded, where the code has 64 bits.
