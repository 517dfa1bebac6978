# Verified model of a low-latency exchange

A Dafny model of the exchange core of a trading system, and proofs about it: the matching engine with
its limit order book, the single-producer/single-consumer ring queue, the fixed-block memory pool, and
the order gateway with its first-in-first-out sequencer. `dafny verify dfyconfig.toml` checks it all.

## What is modelled

**The order book, twice.** `PriceTimeBook` is the reference: one flat queue of resting orders a side,
best price first and oldest first at each price, with `addOrder` as a recursive matching function and
`cancelOrder` as deletion. `LinkedBook` is the class of the source: price levels and orders are blocks
of two `MemoryPool`s, linked into circular rings through their `prev` and `next` block numbers; one
array, indexed by price, serves bids and asks; a map indexes orders by client and client order id; two
logs receive responses and market updates. Every method of the class is proved to do to the reference
book exactly what the reference function does, with the same two streams (`Engine.TradeFromEmpty`). What
is proved about the reference book therefore holds of the linked one: price-time order, no crossed
prices, greedy and fair matching (`BookInvariant`, `MatchProperties`), market data that rebuilds the book
(`MarketData`), life cycle and conservation of every order (`LifeCycle`), and the undoing of an order by
its cancellation (`RoundTrip`). `Account` says in plain comparisons, without the functions of the
reference book, what one request does and what is told to whom, and proves that the outcome and this
account determine each other; `Register` says over whole runs that everything told under a market order
id is told of the one request that got the id, and within its limit. `Ring`, `PriceLevels`, `RestingOrders`, `QueueChanges`, `QueueViews`,
`OrderMoves`, `Allocation`, `Soundness` and `Lookups` hold the proof that the four redundant structures
agree: what each pointer write does to rings, price array, client map, pools and reference queues.

**The ring queue** (`LockFreeQueue`) is a machine of two threads in which the check, the slot, the store
or read, the index bump and the count bump are separate steps that interleave in any order. Steps are
sequentially consistent; the source updates the count with relaxed operations, and nothing is claimed
about weaker memory. `LFQueueClass` is the class, used by one thread at a time.

**The gateway** (`Framing`, `Sockets`, `Sessions`, `Intake`, `Gateway`, `Responses`) takes records out of
sockets' buffers, checks socket and sequence number, and hands requests to the sequencer (`Sequencing`,
`Sequencer`), which sorts them in place and publishes; it also sends responses out. Record size, record
decoding and message layout are parameters. `GatewayRounds` runs the gateway over any number of rounds,
`Reception` says when a record counts as received and that each round is published in that order,
`StreamToEngine` states what a client gets end to end, and `Wire` what it can read off its socket.

## Where the code departs from its intent

- `src/core/matching_engine/order_book.cpp:100` subtracts the fill from the pointer to the remaining
  quantity. The book models the evident intention, subtracting from the quantity. `PointerDecrement`
  models the statement as written and says exactly when its results are right.
- `src/core/matching_engine/order_book.cpp:241-256` puts a price that is worse than every level right
  behind the head. The book uses a repaired insertion behind the last level. The method as written is
  modelled too (`AddPriceLevelAsWritten`), with the exact condition under which it keeps the side sorted,
  which is what the check at lines 174-182 of that file expects.
- `src/core/matching_engine/order_book.h:106-112` finds a level by price modulo the number of levels and
  never compares the price. What is left of an order to rest must not share a slot with a different
  resting price (`Lookups.Fits`); `Lookups.OwnPriceIff` shows that the lookup is right exactly then.
  `PriceIndex.SharedSlot` says which prices collide, `Departures.CollidingPriceExample` meets one such
  price, and `PriceWindow.WindowedRunIsServable` shows that runs inside one window of prices never do.
- `src/core/matching_engine/order_book.cpp:313` overwrites the map entry of a client order id that is
  still live. Such a request is not admissible when it would rest; `QueueChanges.FreshKeyIff` shows that
  this is exactly what the client map needs. `AddOrderUnderUsedId` is the method on such a request, as
  written, and `Departures.ReusedIdExample` takes it through two orders: the older rests on and cannot be cancelled.
- `src/core/gateway/fifo_Sequencer.h:45-47` sorts with a method that need not be stable, although all
  records of one receive share one time. `Sequencing` says exactly which requests stay in order under any
  sort and under a stable one, and shows an order and its cancellation changing places.
- `src/core/gateway/order_gateway_server.cpp:76-78` binds a client to a socket before its sequence number
  is looked at, so a record that is then refused binds all the same. The model does the same.
- `src/core/gateway/fifo_Sequencer.h:52` ignores a failed push. The model says exactly which requests
  are then lost: those beyond the room in the queue.

## Preconditions

They are what the source leaves to its callers or answers by ending the process. A new order names a
side and finds a market order id left; if some of it rests, its client is known, its order id is in
range and not in use, its price's slot is free of other prices, and an order block is free. A
cancellation from a known client names an id in range. The gateway's records name clients in range, its
sequencer's buffer has room, its response loop finds every client bound, and outbound buffers have room.
Quantities, ids and sequence numbers are unbounded naturals; market order ids may not reach the invalid
id, and `BookInvariant.NextPriorityIsLast` bounds priorities by them.

## Model

| member | source | states |
|---|---|---|
| `Engine.TradeFromEmpty` | `src/core/matching_engine/matching_engine.cpp:76-86` | from an empty book, any sequence of requests the book can serve leaves the linked book and the two message streams exactly as the reference run does; the run obeys all laws below; and the order blocks in use are exactly those on the rings, each there once and holding its resting order |
| `Engine.RunIsLawful` | `src/core/matching_engine/matching_engine.cpp:76-86` | after any run of admissible requests: queues in price-time order, no bid at or above an ask, all that is told under an id is told of its request and within its limit, market data rebuilds the book, fills balance, and every market order id conserves its quantity and has an allowed life story |
| `Engine.MatchingEngine.HandleClientRequest` | `src/core/matching_engine/matching_engine.cpp:40-60` | one request changes the linked book and both streams exactly as the reference step, and what it does and tells is its plain account (`Account.AccountOf`); a request of unknown type leaves book and streams as they were |
| `Engine.UnknownRequestsDropOut` | `src/core/matching_engine/matching_engine.cpp:56-58` | leaving the requests of unknown type out of a run changes neither the book nor what is told |
| `Account.StepIsItsAccount` | `src/core/matching_engine/order_book.cpp:19-137` | an outcome is that of a request if and only if the plain account of the request holds of it: the account is right and leaves nothing open |
| `Account.AddOrderTrades` | `src/core/matching_engine/order_book.cpp:19-34` | a new order is accepted under the next id, trades with the first orders of the other side and no more, each within its limit at the resting price for as much as both have; trading ends only when nothing is left or no order is within the limit; what is left rests behind all at least as good, with the next priority at its price; every field of every response and update is given |
| `Account.MatchTrades` | `src/core/matching_engine/order_book.cpp:70-137` | how matching went: its k-th trade is with the k-th order, within the limit; the taker's fill goes to the taker and the maker's to the maker, each under its own ids; and the trade and the change of the resting order are published |
| `Account.CancelOrderTakesOut` | `src/core/matching_engine/order_book.cpp:36-68` | a cancellation takes out the order of that client under that id and tells its client and the market its side, price and what was left; if there is none it is rejected to that client and nothing changes |
| `Register.RunIsOfItsRequests` | `src/core/matching_engine/order_book.cpp:19-137` | over any run, market order ids go to the new requests in order; what rests, is answered or is published under an id has the client, order id and side of its request; no fill or trade is beyond a limit, and resting and cancelled orders are at theirs |
| `Register.OneOwner` | `src/core/matching_engine/order_book.cpp:22-115` | over any run, any two responses under one market order id go to one client, under one order id, for one side |
| `Register.StepOfTicker` | `src/core/matching_engine/order_book.cpp:103-136` | whatever a request causes to be told is told of its instrument |
| `Register.RunOfTicker` | `src/core/matching_engine/matching_engine.cpp:44-55` | a book that is sent the requests of one instrument speaks of that instrument alone |
| `Engine.MatchingEngine.RunMatchingEngine` | `src/core/matching_engine/matching_engine.cpp:76-86` | the request loop composes those steps in order |
| `Engine.MatchingEngine.constructor` | `src/core/matching_engine/matching_engine.cpp:10-20` | a new engine holds an empty sound book and two empty streams |
| `Engine.StepKeepsClients` | `src/core/matching_engine/order_book.cpp:36-44` | every resting order belongs to a client the client map has room for, so a cancellation from beyond its end can be rejected unseen |
| `BookInvariant.RunInv` | `src/core/matching_engine/order_book.cpp:19-137` | in every state reachable from empty: each side in price-time order with positive quantities, ids and client keys unique across both sides, priority at most the market id, every bid strictly below every ask |
| `BookInvariant.StepInv` | `src/core/matching_engine/order_book.cpp:19-137` | each admissible request keeps that invariant |
| `BookInvariant.AddOrderInv` | `src/core/matching_engine/order_book.cpp:19-34` | adding an order keeps it, because matching stops only when nothing acceptable is left |
| `BookInvariant.CancelOrderInv` | `src/core/matching_engine/order_book.cpp:36-68` | cancelling keeps it |
| `BookInvariant.MatchInv` | `src/core/matching_engine/order_book.cpp:70-93` | matching keeps it and ends with nothing left to trade or no acceptable price; the remainder never exceeds the quantity |
| `BookInvariant.Place` | `src/core/matching_engine/order_book.cpp:236-256` | a new order stands behind all orders at least as good and ahead of all that are worse |
| `BookInvariant.NextPriorityIsLast` | `src/core/matching_engine/order_book.h:101-104` | the next priority is above that of every order at the price and at most the next market id, so it cannot overflow before the ids do |
| `BookInvariant.InsertInv` | `src/core/matching_engine/order_book.cpp:24-33` | an order that nothing opposite can trade with may rest without crossing the book |
| `BookInvariant.RemoveIsGood` | `src/core/matching_engine/order_book.cpp:315-339` | deleting by client key keeps order, soundness and uniqueness, and brings in nothing new |
| `MatchProperties.MatchIsGreedy` | `src/core/matching_engine/order_book.cpp:70-93` | matching executes exactly min(quantity, resting quantity at or below a buyer's limit, at or above a seller's), and the other side loses exactly that much |
| `MatchProperties.MatchServesFromHead` | `src/core/matching_engine/order_book.cpp:75-121` | the k-th trade is with the k-th order from the head at its own price; all but the last are used up; the rest is untouched and a partial fill keeps its place, id and priority |
| `MatchProperties.MatchIsFair` | `src/core/matching_engine/order_book.cpp:75-91` | every trade of a match against a sound book is fair at its moment: the book is then sound, the order served is the head of the queue as it is then, at its own price and for as much as both have, and every other order there has a worse price, or the same price with a later id and priority |
| `MatchProperties.RunIsFair` | `src/core/matching_engine/order_book.cpp:75-91` | at every point of every run from the empty book, every trade of a new order is fair at its moment, trades go head first and leave the rest in place, and what is left is the quantity less the smaller of itself and what rests within the request's price |
| `MarketData.UpdatesReconstructBook` | `src/core/matching_engine/order_book.cpp:123-136` | after any run, folding the published updates over an empty table gives exactly the resting orders with side, price, quantity and priority, keyed by market id |
| `MarketData.StepUpdatesFold` | `src/core/matching_engine/order_book.cpp:117-136` | the updates of one request turn the table of the book before into the table of the book after |
| `MarketData.SubscriberSeesEachOrder` | `src/core/matching_engine/order_book.cpp:31-32` | a subscriber to the updates knows exactly the ids that rest, and each with its side, price, current quantity and priority |
| `MarketData.CancelOrderUpdatesFold` | `src/core/matching_engine/order_book.cpp:59-65` | the updates of a cancellation delete exactly the cancelled order from the table, and a rejected one changes nothing |
| `LifeCycle.OrderLifeCycle` | `src/core/matching_engine/order_book.cpp:103-115` | over any run the responses of a market order id are ACCEPTED, then FILLED with falling remainders, then at most one CANCELLED, and end where the book stands |
| `LifeCycle.QuantityIsConserved` | `src/core/matching_engine/order_book.cpp:99-115` | accepted quantity = filled + cancelled + still resting, for every id after any run |
| `LifeCycle.FillsBalance` | `src/core/matching_engine/order_book.cpp:103-121` | over any run buyers and sellers are filled by the same total, which is the total of the TRADE updates |
| `LifeCycle.LifeBalances` | `src/core/matching_engine/order_book.cpp:103-115` | any response story that is not broken balances: what was accepted is what was filled, cancelled or is still held |
| `RoundTrip.AddThenCancelRestores` | `src/core/matching_engine/order_book.cpp:19-68` | a positive order that trades with nothing, then cancelled, restores the book but for the used id, and the client gets its whole quantity back |
| `RoundTrip.CancelUndoesResting` | `src/core/matching_engine/order_book.cpp:36-68` | cancelling right after a partial match leaves what matching alone would have left and returns exactly the remainder |
| `RoundTrip.RemoveUndoesInsert` | `src/core/matching_engine/order_book.cpp:315-339` | deletion undoes insertion at whatever place the order went |
| `PointerDecrement.AsWrittenSweeps` | `src/core/matching_engine/order_book.cpp:99-101` | line 100 as written: the quantity never falls, so any positive order takes all acceptable liquidity and returns its whole quantity |
| `PointerDecrement.ReturnsRightRemainder` | `src/core/matching_engine/order_book.cpp:70-93` | the remainder returned as written is right if and only if nothing could match |
| `PointerDecrement.TakesRightQueue` | `src/core/matching_engine/order_book.cpp:99-101` | the resting queue left as written is the right one if and only if the order is empty or at least as large as what it may trade with |
| `PointerDecrement.AsWrittenTakesWhole` | `src/core/matching_engine/order_book.cpp:99-101` | a single resting order is taken whole by any acceptable order as written, in bites of its size, and the whole quantity is returned |
| `PointerDecrement.SweepExample` | `src/core/matching_engine/order_book.cpp:99-101` | buying 1 against a resting 5 takes all 5 as written |
| `PriceLevels.AsWrittenSortedIff` | `src/core/matching_engine/order_book.cpp:236-256` | the insertion as written leaves the side sorted if and only if it had at most one level or the price is not worse than all |
| `PriceLevels.AsWrittenPlaceIsRight` | `src/core/matching_engine/order_book.cpp:236-256` | the place taken as written is the right one under exactly that condition |
| `PriceLevels.AsWrittenExample` | `src/core/matching_engine/order_book.cpp:250-256` | asks 10 and 20 plus 30: as written 30 goes between, a buyer at 25 stops after the first and would rest above the ask at 20 |
| `Departures.ReusedIdIsNotAdmissible` | `src/core/matching_engine/order_book.cpp:313` | of two new orders of one client under one id and on one side, both left to rest, the second is not admissible |
| `Departures.ReusedIdExample` | `src/core/matching_engine/order_book.cpp:313` | on the linked book: a client buys 10 and then 5 at 100 under one id; both rest in order, the client map names the second and nothing names the first, which can no longer be cancelled |
| `Departures.CollidingPriceExample` | `src/core/matching_engine/order_book.h:106-112` | on the linked book with 256 levels: with an order resting at 100, one at 356 cannot be served, because its price leads to the level of 100 |
| `LinkedBook.OrderBook.AddPriceLevelAsWritten` | `src/core/matching_engine/order_book.cpp:222-270` | the method as written, over rings of any length: a well-formed ring with exactly the one new level, the price array exact, the other side untouched, sorted exactly under that condition, and right behind the best level if worse than all |
| `LinkedBook.OrderBook.PlaceOnRingAsWritten` | `src/core/matching_engine/order_book.cpp:236-269` | the pointer writes as written put the level behind the head when the walk comes round |
| `Pools.MemoryPool.UpdateNextFreeIndex` | `src/lib/memory_pool.h:116-131` | the wrap-around scan stops at the first free block at or after the current index and never reaches its failing assertion while a block is free |
| `Pools.MemoryPool.Allocate` | `src/lib/memory_pool.h:51-68` | null exactly when all blocks are in use; otherwise a block that was free, and only that block changes; the next-free index is free again while any block is |
| `Pools.MemoryPool.Deallocate` | `src/lib/memory_pool.h:75-88` | exactly that block becomes free, its count goes up and it is the next to be handed out |
| `Pools.MemoryPool.GetFreeBlocksCount` | `src/lib/memory_pool.h:95-97` | the count is the number of blocks not in use |
| `Pools.MemoryPool.constructor` | `src/lib/memory_pool.h:30-34` | all blocks are free at first |
| `Pools.Reuse` | `src/lib/memory_pool.h:51-88` | freeing a block and allocating again gives the same block |
| `Pools.Pigeonhole` | `src/lib/memory_pool.h:121-130` | fewer than all blocks in use means some block is free |
| `Pools.WrapCovers` | `src/lib/memory_pool.h:121-127` | stepping round visits every index |
| `Ring.RingSplice` | `src/core/matching_engine/order_book.cpp:250-263` | splicing a block in before a ring member leaves a well-formed ring with the block at that place; before the head it is the end |
| `Ring.RingBypass` | `src/core/matching_engine/order_book.cpp:279-281` | bypassing a member leaves a well-formed ring without it |
| `Ring.RingRotate` | `src/core/matching_engine/order_book.cpp:264-268` | a ring may be taken to start at any member: the new best level |
| `PriceIndex.SharedSlot` | `src/core/matching_engine/order_book.h:106-108` | two prices, negative ones included, share a slot if and only if they differ by a multiple of the number of levels, when that number divides 2^64 |
| `PriceIndex.WindowHasNoCollision` | `src/core/matching_engine/order_book.h:106-112` | prices within one window as wide as the array share a slot only if equal |
| `PriceWindow.WindowedRunIsServable` | `src/core/matching_engine/order_book.h:106-112` | if all new orders of a run lie in one window of as many prices as there are levels, no price is ever led to the level of another: the run can be served if it could be but for prices |
| `PriceWindow.StepKeepsWindow` | `src/core/matching_engine/order_book.cpp:19-68` | matching, resting and cancelling keep all resting prices in the window |
| `PriceLevels.AddLevelValid` | `src/core/matching_engine/order_book.cpp:222-270` | a level put behind exactly the better ones keeps rings, membership, price array and sortedness of both sides |
| `PriceLevels.AddLevelKeeps` | `src/core/matching_engine/order_book.cpp:222-270` | a level put anywhere on its ring keeps all of that but possibly the order of its side |
| `PriceLevels.RemoveLevelValid` | `src/core/matching_engine/order_book.cpp:271-293` | taking a level off its ring and out of the price array keeps the level structure, and the next level becomes the best |
| `Allocation.LevelBlockIsFree` | `src/core/matching_engine/order_book.cpp:297-302` | when the needed slot is empty fewer levels are live than there are slots, so the level pool cannot be exhausted |
| `Allocation.SlotsOwned` | `src/core/matching_engine/order_book.cpp:224` | each live level owns a slot of its own |
| `QueueChanges.FreshKeyIff` | `src/core/matching_engine/order_book.cpp:313` | writing the map entry keeps the client map exact if and only if no live order has the key |
| `RestingOrders.QueuesDisjoint` | `src/core/matching_engine/order_book.cpp:303-310` | no order block is in the queues of two levels |
| `OrderMoves.JoinRest` | `src/core/matching_engine/order_book.cpp:303-310` | joining a level queues the order in the reference queue, and its priority is the reference priority |
| `OrderMoves.OpenRest` | `src/core/matching_engine/order_book.cpp:297-302` | opening a level inserts the order at its place in the reference queue |
| `OrderMoves.LeaveRest` | `src/core/matching_engine/order_book.cpp:322-328` | leaving a level deletes exactly that order from the reference queue, wherever it stood |
| `OrderMoves.CloseRest` | `src/core/matching_engine/order_book.cpp:318-320` | closing a level with its only order deletes exactly that order |
| `Soundness.OpeningSound` | `src/core/matching_engine/order_book.cpp:295-314` | opening a level refines insertion and keeps rings, price array and queues in agreement, whatever the key of the order; with the client map too, if the key was free |
| `Soundness.JoiningSound` | `src/core/matching_engine/order_book.cpp:295-314` | joining a level refines insertion and keeps rings, price array and queues in agreement, whatever the key of the order; with the client map too, if the key was free |
| `Soundness.LeavingSound` | `src/core/matching_engine/order_book.cpp:315-339` | leaving a level keeps all four structures in agreement and refines deletion |
| `Soundness.ClosingSound` | `src/core/matching_engine/order_book.cpp:315-339` | closing a level keeps all four structures in agreement and refines deletion |
| `Soundness.RequantifySound` | `src/core/matching_engine/order_book.cpp:99-101` | lowering the head lowers exactly the head of the reference queue |
| `QueueChanges.UsedKeyIsLost` | `src/core/matching_engine/order_book.cpp:313` | writing the map entry of a live order's key leaves no entry that names the older order |
| `Lookups.SlotIsOwn` | `src/core/matching_engine/order_book.cpp:295-311` | the shared price array leads an order that has nothing left to trade with to a level of its own price and side or to none; this rests on the uncrossed book |
| `Lookups.OwnPriceIff` | `src/core/matching_engine/order_book.h:106-112` | the price array leads a price to its own level or to none if and only if no order rests at a different price of the same slot |
| `Lookups.OtherPriceIsMisled` | `src/core/matching_engine/order_book.h:106-112` | with an order resting, any other price a multiple of the number of slots away does not fit and is led to the level of that order |
| `LinkedBook.OrderBook.OtherPriceLeadsTo` | `src/core/matching_engine/order_book.h:106-112` | the same of the linked book in every sound state |
| `Lookups.SlotsAreExact` | `src/core/matching_engine/order_book.h:106-112` | a slot of the price array is empty just when no resting bid or ask is at a price of that slot |
| `Lookups.KeysAreExact` | `src/core/matching_engine/order_book.cpp:313-335` | a key is in the client map just when a resting order has it |
| `Lookups.BlocksAreOrders` | `src/core/matching_engine/order_book.cpp:315-339` | as many order blocks are in use as orders rest: no leak, no sharing |
| `Lookups.BlocksHoldOrders` | `src/core/matching_engine/order_book.cpp:295-339` | the blocks in use are exactly those on the rings, each there once, and they hold the resting orders in order |
| `Lookups.AllOrdersAreResting` | `src/core/matching_engine/order_book.cpp:295-339` | a block is in use exactly when it is reachable from the two rings |
| `Lookups.NoneCrossesAfterMatch` | `src/core/matching_engine/order_book.cpp:75-91` | if something is left after matching, no opposite order is at an acceptable price |
| `Lookups.PriorityAtLive` | `src/core/matching_engine/order_book.h:101-104` | the order before the first of a level is its last, so the priority read there gives the reference priority |
| `Lookups.PriorityAtNewLevel` | `src/core/matching_engine/order_book.h:101-104` | at a price without a level the priority is 1 |
| `LinkedBook.OrderBook.constructor` | `src/core/matching_engine/order_book.cpp:8` | an empty linked book whose structures agree and stand for the empty reference book |
| `LinkedBook.OrderBook.AddOrder` | `src/core/matching_engine/order_book.cpp:19-34` | the linked book afterwards stands for the reference book of the same order, with identical responses and updates |
| `LinkedBook.OrderBook.CancelOrder` | `src/core/matching_engine/order_book.cpp:36-68` | likewise for a cancellation; `Account.CancelOrderTakesOut` says in plain terms what that is |
| `LinkedBook.OrderBook.FindMatch` | `src/core/matching_engine/order_book.cpp:70-93` | the loop computes recursive price-time matching: remainder, queue left, responses and updates, which `Account.MatchTrades` gives in plain terms |
| `LinkedBook.OrderBook.MatchOrder` | `src/core/matching_engine/order_book.cpp:95-137` | one execution against the head is one reference execution, whether the head leaves or stays; its fields are those of `Account.OneTradeIs` |
| `Account.OneTradeIs` | `src/core/matching_engine/order_book.cpp:99-136` | one execution tells each client of its own order, with what it traded and has left, at the resting price, and tells the market |
| `LinkedBook.OrderBook.AddPriceLevel` | `src/core/matching_engine/order_book.cpp:222-270` | the repaired insertion: the level is at its sorted place, the head is the best price, all level structures agree |
| `LinkedBook.OrderBook.PlaceOnRing` | `src/core/matching_engine/order_book.cpp:236-269` | the pointer writes of that insertion, with the case of a price worse than all placed behind head.prev_ |
| `LinkedBook.OrderBook.FindTarget` | `src/core/matching_engine/order_book.cpp:236-248` | the walk ends at the first level that is not better, or back at the head when all are |
| `LinkedBook.OrderBook.InsertNextTo` | `src/core/matching_engine/order_book.cpp:250-269` | both splice branches and the change of best level |
| `LinkedBook.OrderBook.RemovePriceLevel` | `src/core/matching_engine/order_book.cpp:271-293` | the level leaves ring, price array and pool, the next level becomes the best |
| `LinkedBook.OrderBook.AddOrderToBook` | `src/core/matching_engine/order_book.cpp:295-314` | the order rests at its place in the reference queue, at an existing level or a new one; the client map names it, and stays exact if its key was free |
| `LinkedBook.OrderBook.RemoveOrderFromBook` | `src/core/matching_engine/order_book.cpp:315-339` | exactly that order leaves the reference queue, the client map and the pool; its level goes with its last order |
| `LinkedBook.OrderBook.GetNextPriority` | `src/core/matching_engine/order_book.h:101-104` | one more than the priority of the last order of whatever level the price leads to, or 1; where that is the level of the price on the order's side, the reference priority |
| `LinkedBook.OrderBook.GetNewMarketOrderId` | `src/core/matching_engine/order_book.h:94-96` | ids are handed out in order |
| `LinkedBook.OrderBook.RestRemainder` | `src/core/matching_engine/order_book.cpp:26-33` | what matching left is inserted at its place and announced |
| `LinkedBook.OrderBook.AddOrderUnderUsedId` | `src/core/matching_engine/order_book.cpp:19-34` | a new order left to rest under the id of an order that still rests: both are in the book as insertion would have them, the client map names the newer, and no entry names the older; both streams are as for any new order |
| `LinkedBook.OrderBook.IndexesAreExact` | `src/core/matching_engine/order_book.h:75-80` | in every sound state the price array and the client map name what rests in the book and nothing else |
| `LinkedBook.OrderBook.BlocksInUse` | `src/core/matching_engine/order_book.h:79-80` | in every sound state the order blocks in use are exactly those on the rings, each there once, and the i-th holds the i-th resting order: no leak, no dangling block, no sharing |
| `LinkedBook.MatchingEngineOutput.DispatchClientResponse` | `src/core/matching_engine/matching_engine.cpp:62-67` | a response is appended to the response stream |
| `LinkedBook.MatchingEngineOutput.PublishMarketUpdate` | `src/core/matching_engine/matching_engine.cpp:69-74` | an update is appended to the update stream |
| `LockFreeQueue.FifoWithoutLoss` | `src/lib/lock_free_queue.h:33-71` | in every state of every interleaving of producer and consumer steps, what was consumed is a prefix of what was produced, and every value in between is unharmed in its slot |
| `LockFreeQueue.ProducerNeverOverwrites` | `src/lib/lock_free_queue.h:33-39` | the slot the producer is about to store into is in range, is not the one the consumer points at, and holds no value still to be consumed |
| `LockFreeQueue.ConsumerReadsNext` | `src/lib/lock_free_queue.h:41-47` | the slot the consumer points at holds the next value to consume, however often it is read before the index advances, which covers the peek and advance of the gateway; and the count asserted on advancing is positive |
| `LockFreeQueue.FailuresAreHonest` | `src/lib/lock_free_queue.h:59-66` | push fails only when the buffer is full but for one element just being retired, pop only when every counted element has been consumed |
| `LockFreeQueue.InvHolds` | `src/lib/lock_free_queue.h:33-71` | the queue invariant holds in every state of every execution |
| `LockFreeQueue.StepKeepsInv` | `src/lib/lock_free_queue.h:33-71` | each atomic step of either thread keeps it |
| `LFQueueClass.LFQueue.Push` | `src/lib/lock_free_queue.h:33-39` | used by one thread, push appends unless full, and is exactly its atomic steps |
| `LFQueueClass.LFQueue.Pop` | `src/lib/lock_free_queue.h:41-47` | pop returns and removes the oldest value, or nothing |
| `LFQueueClass.LFQueue.GetNextToRead` | `src/lib/lock_free_queue.h:59-61` | peeking gives the oldest value without removing it |
| `LFQueueClass.LFQueue.UpdateReadIndex` | `src/lib/lock_free_queue.h:53-57` | advancing removes the oldest value |
| `Sequencing.AnySortKeepsClientOrder` | `src/core/gateway/fifo_Sequencer.h:44-47` | every sorting method keeps a client's requests in order if and only if its times strictly increase (but for identical requests) |
| `Sequencing.StableSortKeepsClientOrder` | `src/core/gateway/fifo_Sequencer.h:44-47` | a stable sort keeps them in order if and only if its times never go back |
| `Sequencing.TiedCancelMayComeFirst` | `src/core/gateway/fifo_Sequencer.h:44-47` | an order and its cancellation from one receive may be handed over reversed, and the order stays in the book |
| `Sequencing.OnlyOneSort` | `src/core/gateway/fifo_Sequencer.h:45-47` | without ties there is only one sorted arrangement |
| `Sequencing.StableSortIsUnique` | `src/core/gateway/fifo_Sequencer.h:45-47` | sorted by time with ties left as they were: there is exactly one such arrangement, the one that places each request behind all received no later |
| `Sequencing.StableSortSorts` | `src/core/gateway/fifo_Sequencer.h:45-47` | the stable sort is a sorted permutation |
| `Sequencing.StableSortOfClient` | `src/core/gateway/fifo_Sequencer.h:45-47` | stable sorting and picking out one client commute |
| `Sequencer.FIFOSequencer.PushClientRequest` | `src/core/gateway/fifo_Sequencer.h:63-69` | appends the request with its time |
| `Sequencer.FIFOSequencer.SortPending` | `src/core/gateway/fifo_Sequencer.h:45-47` | sorted by time, a permutation of what was pending; nothing about ties |
| `Sequencer.FIFOSequencer.SequenceAndPublish` | `src/core/gateway/fifo_Sequencer.h:39-56` | hands over the sorted requests as far as the queue has room (all of them if it has), in order, and empties the buffer |
| `Framing.SplitIsUnique` | `src/core/gateway/order_gateway_server.cpp:69-72` | there is only one way to cut a stream into fixed-size records and a shorter leftover |
| `Framing.SplitIsWhole` | `src/core/gateway/order_gateway_server.cpp:69-72` | records and leftover make up the stream |
| `Framing.SplitResumes` | `src/core/gateway/order_gateway_server.cpp:104-106` | cutting may resume from the leftover when more bytes come |
| `Intake.Reassembly` | `src/core/gateway/order_gateway_server.cpp:69-107` | for any fragmentation and interleaving of sockets, a socket's records are the split of its joined stream, and less than one record stays buffered |
| `Reception.ArriveInOrder` | `src/core/gateway/order_gateway_server.cpp:65-108` | the records taken out over any receives come in the order of the receives that complete them: the record that k others of its socket came before is record k of the joined stream, it comes with the receive with which that record is first complete, and it has the time of that receive |
| `Reception.PublishedAsReceived` | `src/core/gateway/fifo_Sequencer.h:39-56` | over all sockets and clients, every round is published in order of reception: each request was completed by a receive of that round and has its time, and the times never go back |
| `GatewayRounds.ServedAsReceived` | `src/core/gateway/order_gateway_server.cpp:65-112` | so the gateway hands over every round in order of reception |
| `Sockets.TCPSocket.Receive` | `src/lib/tcp_socket.cpp:35-44` | received bytes land behind the buffered ones |
| `Sockets.TCPSocket.Consume` | `src/core/gateway/order_gateway_server.cpp:104-106` | the compaction drops the consumed bytes; its precondition is that source and destination do not overlap |
| `Sockets.TCPSocket.Send` | `src/lib/tcp_socket.cpp:69-72` | bytes to send are appended |
| `Sessions.SessionSafety` | `src/core/gateway/order_gateway_server.cpp:75-101` | over any interleaving a client is bound to the socket it used first, and what was accepted of it is numbered 1, 2, 3, ... and came from that socket alone |
| `Sessions.AcceptedExactly` | `src/core/gateway/order_gateway_server.cpp:75-101` | a record is accepted if and only if it is on its client's first socket and carries one more than the number accepted before |
| `Sessions.WellBehavedIsAccepted` | `src/core/gateway/order_gateway_server.cpp:75-101` | a client that keeps to one socket and numbers from 1 has everything accepted, whatever others do |
| `Sessions.EngineSeesClientOrder` | `src/core/gateway/order_gateway_server.cpp:99-112` | over any number of rounds, what is published of a client is what was accepted of it, in sequence-number order, when its times strictly increase or the sort is stable and they do not go back |
| `Sessions.PublishedIsAccepted` | `src/core/gateway/order_gateway_server.cpp:99-112` | round by round, nothing of a client is lost, repeated or reordered by sequencing |
| `StreamToEngine.StreamReachesEngine` | `src/core/gateway/order_gateway_server.cpp:69-112` | from the bytes of the one socket a client uses, shared or not, to the engine: exactly the client's requests of the stream, in stream order, for any fragmentation, interleaving and rounds |
| `Sessions.SortedIsInOrder` | `src/core/gateway/order_gateway_server.cpp:99-112` | whatever sorting method published each round, a client whose accepted requests of one round neither tie nor go back in time is undisturbed |
| `GatewayRounds.ServeRounds` | `src/core/gateway/order_gateway_server.cpp:65-112` | any number of rounds of the gateway: the request queue gets, round after round, a sorted form of exactly what the round left pending, and sessions and buffers are those of all receives |
| `GatewayRounds.ServedInOrder` | `src/core/gateway/order_gateway_server.cpp:75-112` | what a gateway that started without sessions has put on the request queue holds such a client's accepted requests, numbered 1, 2, 3, ... in that order, from the one socket it is bound to |
| `GatewayRounds.ServedStream` | `src/core/gateway/order_gateway_server.cpp:69-112` | if such a client keeps to one socket and numbers from 1, the queue holds exactly the requests of its stream in stream order |
| `Gateway.OrderGatewayServer.constructor` | `src/core/gateway/order_gateway_server.cpp:12-22` | nobody is bound and every next number is 1 |
| `Gateway.OrderGatewayServer.HandleRecord` | `src/core/gateway/order_gateway_server.cpp:71-101` | one record changes the session table and the pending requests as the session rules say, also when it is refused |
| `Gateway.OrderGatewayServer.HandleRecords` | `src/core/gateway/order_gateway_server.cpp:69-102` | the loop handles exactly the complete records and leaves less than one record; if it consumed anything, the leftover is shorter than what was consumed |
| `Gateway.OrderGatewayServer.RxCallback` | `src/core/gateway/order_gateway_server.cpp:65-108` | one receive: sessions and pending requests as for its complete records in order, the leftover stays |
| `Gateway.OrderGatewayServer.ReceiveRound` | `src/core/gateway/order_gateway_server.cpp:65-112` | a round of receives on any sockets and the publication after it, in terms of the reassembled arrivals |
| `Gateway.OrderGatewayServer.RxDoneCallback` | `src/core/gateway/order_gateway_server.cpp:110-112` | what was pending is sorted and handed over |
| `Gateway.HandleNext` | `src/core/gateway/order_gateway_server.cpp:70-102` | one turn of the loop keeps its meaning: what is still buffered leads on to the result of the whole |
| `Gateway.OrderGatewayServer.SendResponses` | `src/core/gateway/order_gateway_server.cpp:50-60` | the loop empties the queue; each socket gets the bytes of exactly its clients' responses, in queue order, each with its number; `Wire.SentIsCut` says what these bytes are |
| `Gateway.OrderGatewayServer.SendResponse` | `src/core/gateway/order_gateway_server.cpp:51-60` | the socket of the client gets the bytes of its next number and then those of the response, no other socket gets any, and its number goes up by one |
| `Wire.WireIsCut` | `src/core/gateway/order_gateway_server.cpp:50-60` | with fixed widths, the bytes put on a socket cut up, with nothing left over, into its clients' responses in queue order, each behind its number, which counts on per client |
| `Wire.SentIsCut` | `src/core/gateway/order_gateway_server.cpp:50-60` | sending all leaves what was queued on a socket in place and puts exactly that behind it |
| `Responses.NumberedInOrder` | `src/core/gateway/order_gateway_server.cpp:50-60` | a client gets all its responses in queue order on its socket, numbered on from where it was without a gap |
| `Responses.SendingResumes` | `src/core/gateway/order_gateway_server.cpp:50-60` | sending in two goes numbers and delivers as sending at once |

## Left out

- PointerDecrement.MatchAsWritten: does not model the quantities reported at line 107, which are read through the moved pointer and are undefined.
- Engine.TradeFromEmpty: one instrument; the dispatch by ticker only picks one of several independent books.
- Engine.MatchingEngine.constructor: one book, not an array of books by ticker.
- LinkedBook.MatchingEngineOutput.DispatchClientResponse: the response queue is taken to have room; in the source a failed push is only logged.
- LinkedBook.MatchingEngineOutput.PublishMarketUpdate: the update queue is taken to have room, likewise.
- LinkedBook.OrderBook.CancelOrder: the two-level client map is one map from client and order id, so an entry holding null and a missing one are the same.
- LinkedBook.OrderBook.FindMatch: one loop serves both sides, with the comparison chosen by the side.
- Sequencer.FIFOSequencer.SortPending: the sorting method is an insertion sort behind a contract that any sorting method meets.
- Sockets.TCPSocket.Receive: the system call, its errors and its time stamp; bytes and time are inputs.
- GatewayRounds.ServeRounds: takes the request queue to have room for all rounds, with nothing taken off meanwhile; what is lost otherwise is stated by `Sequencer.FIFOSequencer.SequenceAndPublish`.
- Weak memory ordering: the queue's steps interleave under sequential consistency.
- Wrap-around of 32- and 64-bit quantities, sequence numbers and indices, other than the conversion of prices to unsigned.
- An order with no valid side, which the source would rest among the asks.
- Byte layout of records and messages, beyond records having one fixed size.
- Accepting connections, polling, sending from the outbound buffers, and closing sockets.
- Threads, start and stop, sleeps, logging, formatting of messages and of the book.
