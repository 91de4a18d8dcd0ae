# Sixchange, modelled and proved in Dafny

Sixchange is a single-symbol exchange with price-time priority, built from intrusive linked lists, a fixed
order pool, an open-addressing id index, a text protocol and a lock-free logger. This project models that
code and proves what it is for.

## How it is built

The imperative parts are classes with the fields and the branches of the source. Each is proved against a
reference that is only values, and what the exchange promises is proved of the reference, for all inputs and
all runs.

| part | class | reference | results |
|---|---|---|---|
| id index | `FixedOrderMap.dfy` | a finite map | same file |
| pool, levels, book | `OrderPool.dfy`, `PriceLevel.dfy`, `OrderBook.dfy` | `BookSpec.dfy`: one queue per side in priority order | `Matching.dfy`, `BookTheory.dfy` |
| engine | `MatchingEngine.dfy` | `EngineSpec.dfy` | `CommandAnswers.dfy`, `Provenance.dfy`, `Replay.dfy`, `Conservation.dfy`, `Mirror.dfy`, `EventGrammar.dfy` |
| gateway | `OrderGateway.dfy` | `GatewaySpec.dfy` | same file, `GatewayAnswers.dfy` |
| codec | `Tokens.dfy`, `Numerals.dfy`, `TextCodec.dfy` | the tokens of a line | same files, `CodecAnswers.dfy` |
| command line | `Cli.dfy` | the same file's `Serve` | same file |
| ring and logger | `SpscRing.dfy`, `AsyncFileLogger.dfy` | small-step machines of two threads | same files, `RingProgress.dfy`, `LoggerProgress.dfy` |

`BookLayout.dfy` is the step between the heap and the reference book: it describes pool, lists, free list and
index as one value, says what makes it consistent, and proves that each elementary change (link, unlink,
reserve, retire, trade) keeps it consistent and is the corresponding change of the reference book.
`Flattening.dfy` turns price levels into one queue. `Words.dfy` has the 64-bit arithmetic: wrapping sums, and
masking by a power of two as a remainder.

Comments that begin with "MAIN RESULT" mark the theorems to read first. They hold of the classes because each
class method's postcondition says that the class takes the reference's step: `Cli.Exchange.Run` ties the whole
stack to `Cli.Serve`, `Cli.ServingIsSession` ties that to sessions, and `GatewaySpec.SessionRunsEngine` ties
sessions to engine runs.

What each command, request and line is answered is stated apart from the references, over plain fields and numbers,
in `CommandAnswers.dfy`, `GatewayAnswers.dfy` and `CodecAnswers.dfy`.

Conventions. An `Order*` is a slot number of the pool. Prices, quantities and client ids are 64-bit words,
level totals wrap, and identifiers that come from counters are unbounded. The hash is an arbitrary function.
Sinks are append-only logs.

## Where the code decides

- The message length is limited to 256 characters before a trailing carriage return is removed, so a line of
  256 characters and a carriage return is refused (`TextCodec.RoundTripWithCarriageReturn`).
- A cancel request for a symbol that ends in a carriage return loses it (`TextCodec.LosesCarriageReturn`);
  `TextCodec.RoundTrip` has the exact condition.
- The protocol table of the repository's README lists one order type, one time in force and one symbol. The
  decoder accepts `M`, `IOC`, `FOK` and any symbol; the engine and the gateway refuse them.
- In a table that is full, filled probe paths are not enough for `erase`
  (`OpenAddressing.FilledPathsAreNotEnough`). The invariant has a cut slot in addition, which every run keeps.

## Model

| member | source | states |
|---|---|---|
| `OpenAddressing.FixedOrderMap.ContentsAreEntries` | `src/engine/FixedOrderMap.h:128-132` | The finite map that stands for the table is exactly what the slots hold, each key in one slot; `size` is its cardinality and equals the capacity exactly when every slot is occupied |
| `OpenAddressing.FixedOrderMap.constructor` | `src/engine/FixedOrderMap.h:33-37` | An empty table for any power-of-two capacity and any hash function |
| `OpenAddressing.FixedOrderMap.Create` | `src/engine/FixedOrderMap.h:134-142` | A table exists exactly for the capacities that are powers of two; the other ones are the thrown error |
| `OpenAddressing.FixedOrderMap.Insert` | `src/engine/FixedOrderMap.h:39-62` | DuplicateKey iff the key is present, else Full iff as many keys are stored as there are slots, else the map gains the pair; nothing changes on refusal |
| `OpenAddressing.FixedOrderMap.Find` | `src/engine/FixedOrderMap.h:64-72` | The value of the key in the finite map, or nothing |
| `OpenAddressing.FixedOrderMap.Contains` | `src/engine/FixedOrderMap.h:74-77` | Membership in the finite map |
| `OpenAddressing.FixedOrderMap.Erase` | `src/engine/FixedOrderMap.h:79-110` | Removes exactly the given key, also from a completely full table, and answers whether it was there |
| `OpenAddressing.FixedOrderMap.FindIndex` | `src/engine/FixedOrderMap.h:168-186` | The slot of a present key; the capacity exactly for an absent one |
| `OpenAddressing.FixedOrderMap.Probe` | `src/engine/FixedOrderMap.h:40-59` | Probing stops at the first slot that is vacant or holds the key, after having seen only other keys |
| `OpenAddressing.FixedOrderMap.ShiftFrom` | `src/engine/FixedOrderMap.h:91-107` | Backward shifting restores the table invariant, and its effect on the slots is the function that the counterexample below is about |
| `OpenAddressing.FixedOrderMap.ExamineSlot` | `src/engine/FixedOrderMap.h:98-104` | One iteration keeps the mid-erase invariant, whether or not the entry moves |
| `OpenAddressing.FixedOrderMap.NextBucket` | `src/engine/FixedOrderMap.h:160-162` | `(index + 1) & mask` is the cyclic successor |
| `OpenAddressing.FixedOrderMap.ProbeDistance` | `src/engine/FixedOrderMap.h:164-166` | The wrapped and masked difference is the cyclic distance |
| `OpenAddressing.ShiftMoves` | `src/engine/FixedOrderMap.h:100-104` | Moving an entry into the hole keeps every other entry reachable, given a cut slot that no probe path passes |
| `OpenAddressing.ShiftStops` | `src/engine/FixedOrderMap.h:93-96` | When shifting stops, at a vacant slot or after a whole round, every probe path is filled again |
| `OpenAddressing.ProbeMisses` | `src/engine/FixedOrderMap.h:168-186` | Reaching a vacant slot, or going all the way round, shows that the key is absent |
| `OpenAddressing.FilledPathsAreNotEnough` | `src/engine/FixedOrderMap.h:79-110` | Filled probe paths alone are not inductive for `erase` on a full table: a concrete table of four slots that has them and loses a key, and for which no cut slot exists |
| `Pool.OrderPool.constructor` | `src/engine/OrderPool.h:13-17` | Every slot blank, none handed out |
| `Pool.OrderPool.Allocate` | `src/engine/OrderPool.h:19-33` | The slot released last, else the next never used, made blank; null iff the free list is empty and every slot was used |
| `Pool.OrderPool.Release` | `src/engine/OrderPool.h:35-41` | The slot becomes blank and heads the free list; nothing else changes |
| `Levels.PriceLevel.PushBack` | `src/engine/PriceLevel.h:19-32` | The order joins the back of the doubly linked list, only links next to it change, the total grows modulo 2^64 |
| `Levels.PriceLevel.Remove` | `src/engine/PriceLevel.h:34-52` | The order leaves the list from any position, the others keep their order, only links change, the total shrinks modulo 2^64 |
| `Levels.AppendLinks` | `src/engine/PriceLevel.h:20-30` | Relinking at the tail yields a well-linked list without repetition that is the old one with the order behind it |
| `Levels.BypassLinks` | `src/engine/PriceLevel.h:35-47` | Bypassing an element yields the well-linked list without it |
| `BookLayout.SlotHasOnePlace` | `src/engine/OrderPool.h:19-41` | Every pool slot is in exactly one place: never used, free, in flight, or in one level, which is that of its own side and price, at one position |
| `BookLayout.AppendRefines` | `src/engine/OrderBook.cpp:259-276` | Linking a loose order into its level is `Enqueue` on the reference book and keeps the whole-heap invariant |
| `BookLayout.UnlinkRefines` | `src/engine/OrderBook.cpp:197-217` | Unlinking an order is `Drop` on the reference book and keeps the whole-heap invariant |
| `BookLayout.RetireRefines` | `src/engine/OrderBook.cpp:141-150` | Erasing and releasing a loose order leaves the reference book alone and keeps the whole-heap invariant |
| `BookLayout.AdmitRefines` | `src/engine/OrderBook.cpp:73-97` | Filling in and indexing a fresh slot leaves the reference book alone and keeps the whole-heap invariant |
| `BookLayout.TradeRefines` | `src/engine/OrderBook.cpp:343-345` | Taking one quantity off the aggressor, the best resting order and its level total shrinks the head of the reference queue and nothing else |
| `BookLayout.HandBackRefines` | `src/engine/OrderBook.cpp:106-106` | Releasing a slot that was never indexed leaves the reference book alone and keeps the whole-heap invariant |
| `BookLayout.IndexFacts` | `src/engine/OrderBook.cpp:170-183` | The id index holds exactly the resting and in-flight orders, and what it finds is what the reference book finds |
| `BookLayout.BestIsFront` | `src/engine/OrderBook.cpp:331-334` | A best price that agrees with a full scan is the price at the front of the reference queue, whose first order is the head of that level |
| `Flattening.QueueAtPrice` | `src/engine/OrderBook.cpp:20-21` | Reading the flattened queue price by price gives back the levels, each in its own order |
| `Flattening.QueueAround` | `src/engine/OrderBook.cpp:20-21` | The flattened queue is what is better, then one level, then what is worse |
| `OrderBooks.OrderBook.constructor` | `src/engine/OrderBook.cpp:13-33` | A valid configuration yields a book that stands for the empty reference book |
| `OrderBooks.OrderBook.Create` | `src/engine/OrderBook.cpp:23-27` | A book exists exactly for the valid configurations; the others are the thrown error |
| `OrderBooks.OrderBook.LevelHoldsItsPrice` | `src/engine/PriceLevel.h:19-57` | Each level is a well-linked list of exactly the reference orders of its price, first in first out, and its cached total is their sum modulo 2^64 |
| `OrderBooks.OrderBook.BestBidIsFront` | `src/engine/OrderBook.cpp:289-302` | The cached best bid is the price of the first order of the reference bids, none iff there is none |
| `OrderBooks.OrderBook.BestAskIsFront` | `src/engine/OrderBook.cpp:304-318` | The cached best ask is the price of the first order of the reference asks, none iff there is none |
| `OrderBooks.OrderBook.UpdateBestBidAfterRemoval` | `src/engine/OrderBook.cpp:289-302` | The downward scan finds the highest non-empty bid level |
| `OrderBooks.OrderBook.UpdateBestAskAfterRemoval` | `src/engine/OrderBook.cpp:304-318` | The upward scan finds the lowest non-empty ask level |
| `OrderBooks.OrderBook.Admit` | `src/engine/OrderBook.cpp:35-124` | Refuses with the first reason that applies, changing nothing; else the order is in flight, indexed and in no list. The map answers neither Full nor, for fresh ids, DuplicateKey |
| `OrderBooks.OrderBook.Register` | `src/engine/OrderBook.cpp:85-123` | A duplicate id gives the slot back; Full is impossible; else the order is indexed |
| `OrderBooks.OrderBook.Execute` | `src/engine/OrderBook.cpp:126-156` | The executions, the remainder, whether it rested and the book afterwards are those of the reference book |
| `OrderBooks.OrderBook.MatchBuy` | `src/engine/OrderBook.cpp:330-386` | The loop against the asks is the greedy fill of the reference asks, execution by execution; no price is above the buyer's, and quantity is left only when the best ask is strictly above it |
| `OrderBooks.OrderBook.MatchSell` | `src/engine/OrderBook.cpp:388-445` | The loop against the bids is the greedy fill of the reference bids, execution by execution; no price is below the seller's, and quantity is left only when the best bid is strictly below it |
| `OrderBooks.OrderBook.MatchBuyOnce` | `src/engine/OrderBook.cpp:331-384` | One iteration trades the minimum of both remainders with the front order at its price, and removes that order iff it is used up |
| `OrderBooks.OrderBook.MatchSellOnce` | `src/engine/OrderBook.cpp:389-443` | The same on the other side |
| `OrderBooks.OrderBook.TradeWithBest` | `src/engine/OrderBook.cpp:332-371` | The execution reported is between the aggressor and the front order of the best level |
| `OrderBooks.OrderBook.Rest` | `src/engine/OrderBook.cpp:254-276` | The remainder joins the reference queue behind every order priced at least as well |
| `OrderBooks.OrderBook.Withdraw` | `src/engine/OrderBook.cpp:197-217` | A resting order leaves its level, and counters and best prices again agree with a full scan |
| `OrderBooks.OrderBook.Retire` | `src/engine/OrderBook.cpp:141-150` | Erasing from the index succeeds and the slot is released |
| `OrderBooks.OrderBook.Cancel` | `src/engine/OrderBook.cpp:158-252` | Refuses with the first reason that applies, changing nothing; else exactly that order is gone and its data is reported. The failed-erase answer does not occur |
| `Matching.TradesAreGreedy` | `src/engine/OrderBook.cpp:330-386` | Execution `i` is with the order at position `i`, at its price, for exactly what is left of the aggressor after all orders ahead of it; later orders get nothing |
| `Matching.LeftoverIsUnfilled` | `src/engine/OrderBook.cpp:373-384` | The queue that stays is each order less what it was granted; those granted all are gone and a partly filled one keeps its place |
| `Matching.AggressorTakesAll` | `src/engine/OrderBook.cpp:331-345` | The aggressor gives up the minimum of its quantity and the total of the orders within its limit |
| `Matching.EligibleIsAll` | `src/engine/OrderBook.cpp:331-331` | The orders priced at or inside the limit are a prefix of the queue |
| `Matching.LimitIsRespected` | `src/engine/OrderBook.cpp:331-331` | Priority grants something to an order iff it is priced at or inside the limit and quantity is left for it; every execution is at or inside the limit, in numbers |
| `Matching.FillIsBounded` | `src/engine/OrderBook.cpp:331-385` | At most one execution more than orders fully filled, and at most one per unit of quantity: a bound on the loop |
| `Matching.FillStops` | `src/engine/OrderBook.cpp:132-139` | Quantity is left only when the best price left is strictly outside the limit, in numbers |
| `BookTheory.EnqueueKeeps` | `src/engine/OrderBook.cpp:254-276` | A younger order lands in its place in price-time priority, the others as they were |
| `BookTheory.ExecuteKeeps` | `src/engine/OrderBook.cpp:126-139` | Matching and resting keep the book in priority order, with distinct ids, live quantities and bids strictly below asks |
| `BookTheory.RemoveKeepsBook` | `src/engine/OrderBook.cpp:197-227` | So does removing an order, which makes the book smaller by one iff the id was there |
| `MatchingEngines.MatchingEngine.constructor` | `src/engine/MatchingEngine.cpp:7-16` | Ids start at 1 with an empty book |
| `MatchingEngines.MatchingEngine.Process` | `src/engine/MatchingEngine.cpp:24-51` | Every command steps the reference engine and emits exactly its events |
| `MatchingEngines.MatchingEngine.ProcessNewOrder` | `src/engine/MatchingEngine.cpp:53-141` | Acceptance, trades and resting, or one rejection, in this order and with these fields |
| `MatchingEngines.MatchingEngine.ProcessCancelOrder` | `src/engine/MatchingEngine.cpp:143-182` | Cancellation with the remaining quantity, or one rejection |
| `MatchingEngines.MatchingEngine.OnMatch` | `src/engine/MatchingEngine.cpp:184-208` | The next trade id and one trade event |
| `MatchingEngines.MatchingEngine.NeverCrossed` | `src/engine/OrderBook.cpp:97-98` | Between commands best bid < best ask whenever both exist, and no resting order is priced better than the cached best |
| `EngineSpec.StepKeepsValid` | `src/engine/MatchingEngine.cpp:24-51` | Every command keeps the engine invariant: priority order, liveness, capacity, no crossing, ids ahead of all orders |
| `EngineSpec.RunKeepsValid` | `src/engine/MatchingEngine.cpp:24-51` | So does every run |
| `EngineSpec.RejectionChangesNothing` | `src/engine/MatchingEngine.cpp:90-101` | A command answered by a rejection leaves the whole engine as it was, with that one event |
| `EngineSpec.CapacityIsExact` | `src/engine/OrderBook.cpp:73-121` | An otherwise valid order is refused iff max_active_orders orders rest, and then as CapacityExhausted; ids never collide |
| `Replay.ReplayRebuildsBook` | `src/engine/MatchingEngine.cpp:104-139` | Replaying the events of any run from an empty book rebuilds the book, FIFO order included |
| `Replay.ReplayStep` | `src/engine/MatchingEngine.cpp:53-182` | The same for one command on any valid book |
| `Conservation.QuantityIsConserved` | `src/engine/OrderBook.cpp:339-345` | After any run, for every order: original = traded on either side + cancelled + resting |
| `Conservation.StepConserves` | `src/engine/OrderBook.cpp:229-237` | One command conserves the quantity of every order id |
| `Conservation.BoughtEqualsSold` | `src/engine/OrderBook.cpp:355-371` | After any run, quantity bought by the buy orders = quantity sold by the sell orders = volume of the trades reported |
| `Conservation.RunTwoSided` | `src/engine/OrderBook.cpp:355-371` | Every trade is between an accepted buy and an accepted sell order, the sides that it names |
| `Mirror.RunsMirror` | `src/engine/OrderBook.cpp:330-445` | Swapping sides and reflecting prices in a command stream gives the reflected book and events: the two loops and the two scans are mirrors |
| `Mirror.ReflectFill` | `src/engine/OrderBook.cpp:330-445` | The two matching loops are mirrors on any queue |
| `Mirror.ReflectTwice` | `src/engine/OrderBook.cpp:330-445` | Reflecting twice is the identity |
| `EventGrammar.NewOrderAnswer` | `src/engine/MatchingEngine.cpp:80-140` | One rejection, or Accepted, trades with consecutive ids whose remainders chain and whose prices only get worse within the limit, and Rested iff quantity remains, for that quantity |
| `EventGrammar.FillPricesWorsen` | `src/engine/OrderBook.cpp:331-341` | Trade prices within a command never improve for the aggressor |
| `EventGrammar.OtherAnswer` | `src/engine/MatchingEngine.cpp:143-182` | A cancel or replace is answered by exactly one event |
| `EventGrammar.NumberingIsGapless` | `src/engine/MatchingEngine.cpp:184-185` | Over any run accepted order ids and trade ids are each 1, 2, 3, ..., and the execution count is the number of trades |
| `EventGrammar.CancelUndoesRest` | `src/engine/OrderBook.cpp:158-252` | An order that rests without trading and is then cancelled restores the book exactly |
| `CommandAnswers.NewOrderIsAnswered` | `src/engine/MatchingEngine.cpp:53-120` | A new order is refused with the first reason that applies, each written out with its condition, or accepted under the next id with its own fields |
| `CommandAnswers.AcceptedIff` | `src/engine/MatchingEngine.cpp:54-102` | OrderAccepted occurs iff the order is Limit, GFD, for the symbol, with positive quantity, a price on the grid, and fewer than max_active_orders resting |
| `CommandAnswers.CancelIsAnswered` | `src/engine/OrderBook.cpp:158-237` | Foreign symbol, then no resting order of that id, then another owner, each with its reason; else the cancellation of exactly that order with its own fields |
| `CommandAnswers.CancelTakesOnlyItsOrder` | `src/engine/OrderBook.cpp:197-249` | A successful cancel takes exactly the orders of that id out of the book |
| `CommandAnswers.ReplaceIsRefused` | `src/engine/MatchingEngine.cpp:34-44` | A replace is answered by one fixed rejection and changes nothing |
| `CommandAnswers.TradesWithinLimit` | `src/engine/OrderBook.cpp:331-341` | No trade of a command is beyond its price, and what rests of it rests strictly inside the best price of the other side |
| `CommandAnswers.RunTradesWithinLimits` | `src/engine/OrderBook.cpp:330-445` | In any run, no buyer pays more and no seller gets less than the price of its command |
| `CommandAnswers.PriorityInNumbers` | `src/engine/OrderBook.cpp:254-276` | Bids stand from high to low, asks from low to high, equal prices by age, and every bid is below every ask |
| `Provenance.EveryEventIsFounded` | `src/engine/OrderBook.cpp:355-371` | In any run, every trade is between two accepted orders, names each by its own ids, is at the resting order's price and within the aggressor's limit; whatever rests or is cancelled carries the fields it was accepted with |
| `Provenance.ExecutionNames` | `src/engine/OrderBook.cpp:356-370` | Each execution carries the aggressor's own ids, symbol and sequence number, and the ids of the resting order at its position |
| `OrderGateways.OrderGateway.constructor` | `src/gateway/OrderGateway.cpp:12-15` | A fresh gateway on a fresh engine for its symbol |
| `OrderGateways.OrderGateway.HandleMessage` | `src/gateway/OrderGateway.cpp:17-30` | Every request steps the reference gateway and sends exactly its messages |
| `OrderGateways.OrderGateway.HandleNewOrder` | `src/gateway/OrderGateway.cpp:41-94` | Duplicate id, then unknown symbol, else the command with the next sequence number |
| `OrderGateways.OrderGateway.HandleCancelOrder` | `src/gateway/OrderGateway.cpp:96-148` | Unknown symbol, then unknown id, else the command for the recorded order |
| `OrderGateways.OrderGateway.OnEngineEvent` | `src/gateway/OrderGateway.cpp:150-243` | What one engine event adds to the id map and the outbound messages |
| `GatewaySpec.HandleKeepsValid` | `src/gateway/OrderGateway.cpp:41-235` | Each request is answered by exactly one message about it; NotOrderOwner and the duplicate-acceptance termination do not occur; the id map stays injective and only grows |
| `GatewaySpec.SessionKeepsValid` | `src/gateway/OrderGateway.cpp:17-235` | So over every session of a sole gateway: the messages answer the requests one by one |
| `GatewaySpec.CancelSucceedsIffResting` | `src/engine/OrderBook.cpp:170-195` | A cancel for the symbol succeeds iff an order with that client id rests, naming its order id; else it is UnknownOrder and the engine is unchanged |
| `GatewaySpec.SessionRunsEngine` | `src/gateway/OrderGateway.cpp:67-67` | Behind a session the engine makes a run of commands with sequence numbers 1, 2, 3, ... |
| `GatewayAnswers.GatewayRefusals` | `src/gateway/OrderGateway.cpp:42-65` | The gateway's own refusals, each with its reason, leave it as it was |
| `GatewayAnswers.NewRequestReachesEngine` | `src/gateway/OrderGateway.cpp:67-93` | Any other new order reaches the engine with price, quantity, side, type and time in force of the request, client 1, symbol 0 and the next sequence number |
| `GatewayAnswers.NewRequestIsAnswered` | `src/gateway/OrderGateway.cpp:150-210` | It gets the first rejection that applies, or the acceptance, and then its id is on record with the order id of the answer |
| `GatewayAnswers.AcceptedRequestRests` | `src/gateway/OrderGateway.cpp:69-79` | An accepted request that nothing meets rests with its own side, price and quantity, the other orders unchanged |
| `GatewayAnswers.CancelRequestTakesItsOrder` | `src/gateway/OrderGateway.cpp:126-147` | A successful cancel takes away the order of that client id and no other |
| `Ring.Fifo` | `src/logging/SpscRing.h:25-53` | Under every interleaving the values popped are a prefix of those pushed, and the wrapped difference of the counters is their true distance, at most the capacity |
| `Ring.RaceFree` | `src/logging/SpscRing.h:33-48` | Under every interleaving a slot about to be written is not the one about to be read |
| `Ring.RefusalsAreJustified` | `src/logging/SpscRing.h:29-46` | From the moment `tail` is read, a push is refused iff the ring is full then; from the moment `head` is read, a pop finds nothing iff the ring is empty then |
| `Ring.EmptyIsExact` | `src/logging/SpscRing.h:55-58` | `empty` answers whether the ring was empty when it read `head` |
| `Ring.IndexOfCounter` | `src/logging/SpscRing.h:67-67` | Masking a wrapped counter gives the true position modulo the capacity |
| `Ring.ProducerKeeps` | `src/logging/SpscRing.h:25-38` | Every producer step keeps the invariant |
| `Ring.ConsumerKeeps` | `src/logging/SpscRing.h:40-58` | Every consumer step keeps the invariant |
| `Ring.SpscRing.constructor` | `src/logging/SpscRing.h:19-20` | Both counters zero |
| `Ring.SpscRing.StepProducer` | `src/logging/SpscRing.h:25-38` | One load, store or slot access of `try_push`, in place |
| `Ring.SpscRing.StepConsumer` | `src/logging/SpscRing.h:40-58` | One load, store or slot access of `try_pop` or `empty`, in place |
| `RingProgress.PushSucceeds` | `src/logging/SpscRing.h:25-38` | In every reachable state a push that begins with room succeeds within five producer steps, under any consumer steps in between, and publishes exactly its value |
| `RingProgress.RefusedOnlyIfFull` | `src/logging/SpscRing.h:29-31` | A push ends refused only if the ring was full at some moment since it began |
| `RingProgress.PushIsRefused` | `src/logging/SpscRing.h:29-31` | A push during which the ring stays full ends refused within three producer steps and publishes nothing |
| `RingProgress.PopSucceeds` | `src/logging/SpscRing.h:40-53` | A pop that begins with something stored succeeds within five consumer steps, under any producer steps in between, and yields exactly the oldest value |
| `RingProgress.FoundNoneOnlyIfEmpty` | `src/logging/SpscRing.h:44-46` | A pop finds nothing only if the ring was empty at some moment since it began |
| `RingProgress.EmptyAnswers` | `src/logging/SpscRing.h:55-58` | `empty` answers within two steps, with what was true at some moment since it began |
| `LoggerProgress.RoomMeansAccepted` | `src/logging/AsyncFileLogger.cpp:70-73` | A record logged when the ring has room is accepted, whatever the worker does in between |
| `LoggerProgress.AcceptedIsWritten` | `src/logging/AsyncFileLogger.cpp:87-93` | Stopped or not, whatever was accepted is in the file, in order, after 40 worker steps per slot and 40 more |
| `LoggerProgress.DropsAreReported` | `src/logging/AsyncFileLogger.cpp:95-99` | Stopped or not, every counted drop is reported after 7174 worker steps |
| `LoggerProgress.StopMeansExit` | `src/logging/AsyncFileLogger.cpp:52-57` | A stop requested between records makes the worker exit within 40 steps per slot and 40 more, everything written and every drop reported |
| `AsyncLogger.NothingIsLostSilently` | `src/logging/AsyncFileLogger.cpp:70-117` | Under every interleaving the file holds a prefix of the accepted records; once the worker has exited, all of them, and written + reported drops = attempted |
| `AsyncLogger.WorkerDrainsAndExits` | `src/logging/AsyncFileLogger.cpp:87-117` | After the stop request, any schedule that gives the worker a stated number of steps makes it drain the ring, report every drop and exit |
| `AsyncLogger.LogNextKeeps` | `src/logging/AsyncFileLogger.cpp:70-117` | Every step of either thread keeps the accounting invariant |
| `AsyncLogger.AsyncFileLogger.constructor` | `src/logging/AsyncFileLogger.cpp:37-50` | The logger starts with nothing written, dropped or reported |
| `AsyncLogger.AsyncFileLogger.EnqueueRecord` | `src/logging/AsyncFileLogger.cpp:70-71` | A record is attempted and its push begins |
| `AsyncLogger.AsyncFileLogger.StepEnqueue` | `src/logging/AsyncFileLogger.cpp:70-78` | One step of pushing, or counting a refused record |
| `AsyncLogger.AsyncFileLogger.StepWorker` | `src/logging/AsyncFileLogger.cpp:87-117` | One step of the worker loop |
| `AsyncLogger.AsyncFileLogger.Stop` | `src/logging/AsyncFileLogger.cpp:52-53` | The stop request, between records |
| `Numerals.ParseUnsigned` | `src/protocol/TextCodec.cpp:64-82` | Reads exactly the non-empty digit strings below 2^64, each as its value |
| `Numerals.PrintedIsRead` | `src/protocol/TextCodec.cpp:356-364` | The printed number is a numeral of its value |
| `Tokenizing.SpacingIsIgnored` | `src/protocol/TextCodec.cpp:23-42` | However fields are spaced with blanks and tabs, the tokens are the fields |
| `Tokenizing.EveryLineIsSpaced` | `src/protocol/TextCodec.cpp:23-42` | Every line is such a spacing of its tokens |
| `Tokenizing.TokenCursor.Next` | `src/protocol/TextCodec.cpp:23-42` | Takes the next token of the line, or answers that there is none |
| `Tokenizing.TokenCursor.Empty` | `src/protocol/TextCodec.cpp:44-47` | Whether every token was taken |
| `Tokenizing.TokenCursor.SkipWhitespace` | `src/protocol/TextCodec.cpp:50-59` | Blanks go, the tokens stay |
| `TextCodec.DecodeNewOrder` | `src/protocol/TextCodec.cpp:124-217` | The request or rejection of a token list that begins with N |
| `TextCodec.DecodeCancelOrder` | `src/protocol/TextCodec.cpp:219-244` | The request or rejection of a token list that begins with C; its rejections name the client id |
| `TextCodec.DecodeMessage` | `src/protocol/TextCodec.cpp:258-348` | Length limit before carriage-return removal, then the answer for the tokens |
| `TextCodec.RoundTrip` | `src/protocol/TextCodec.cpp:258-348` | The documented line of a request decodes to it iff it has at most 256 characters, the request is one the protocol has a line for, and a cancelled symbol does not end in a carriage return |
| `TextCodec.RoundTripWithCarriageReturn` | `src/protocol/TextCodec.cpp:270-272` | With a carriage return appended, iff the line has at most 255 characters and the request is one the protocol has a line for |
| `TextCodec.FreeFormat` | `src/protocol/TextCodec.cpp:284-299` | Decoding depends on the fields and not on the spacing |
| `TextCodec.LosesCarriageReturn` | `src/protocol/TextCodec.cpp:270-272` | The requests for which the plain round trip fails: a cancelled symbol that ends in a carriage return |
| `TextCodec.EncodeIsInjective` | `src/protocol/TextCodec.cpp:350-407` | Different messages have different lines |
| `CodecAnswers.LineIsAnswered` | `src/protocol/TextCodec.cpp:124-244` | The answer to any line of at most 256 characters, by its fields: bad price before bad quantity before a wrong number of fields, cancels refused under their id, everything else refused without one, and each accepted request with the values of its fields |
| `CodecAnswers.LongLineIsRefused` | `src/protocol/TextCodec.cpp:259-268` | A line of more than 256 characters is refused without a client id |
| `CodecAnswers.EveryMessageCarriesFields` | `src/protocol/TextCodec.cpp:270-284` | Every message is some spacing of fields, with or without a carriage return, so the two rows above cover all |
| `CodecAnswers.AnswerIsReadBack` | `src/protocol/TextCodec.cpp:350-407` | An independent reader recovers verb, ids and reason from every outbound line |
| `CodecAnswers.AnswerIsPlain` | `src/protocol/TextCodec.cpp:350-407` | Outbound fields are separated by single blanks |
| `CodecAnswers.ReasonIsRead` | `src/core/EnumNames.h:64-106` | Each reject reason has its own text, read back by a table of the texts |
| `Numerals.PrintIsPlain` | `src/protocol/TextCodec.cpp:356-364` | Numbers are printed without leading zeros |
| `TextCodec.ReasonsDiffer` | `src/core/EnumNames.h:64-106` | Different reject reasons have different names |
| `Cli.EveryLineIsAnswered` | `apps/sixchange_cli.cpp:58-69` | Whatever lines arrive, each is answered by exactly one line, in order, that is the text of an answer to it |
| `Cli.OutputIsTheSession` | `apps/sixchange_cli.cpp:58-69` | What is printed is, line by line, the decoder's rejection or the session's message for that request |
| `Cli.ServingIsSession` | `apps/sixchange_cli.cpp:58-69` | The exchange behind the text is the gateway session of the requests among the lines |
| `Cli.Exchange.constructor` | `apps/sixchange_cli.cpp:38-49` | A fresh exchange |
| `Cli.Exchange.Run` | `apps/sixchange_cli.cpp:58-69` | The main loop does what the reference does, line by line, over the class stack down to the pool and the map |
| `Cli.Exchange.AnswerLine` | `apps/sixchange_cli.cpp:59-68` | One line: its rejection, or the gateway's answer, as text |

## Left out

- 64-bit wrap-around of order ids, trade ids, sequence numbers, the execution count and the drop counter: they are unbounded.
- Pointers: an order is named by its slot in the pool's array, and a level by its position in a constant sequence of level objects.
- Callbacks while the book is inside `execute`: executions and events are collected in order and handled when the emitting call returns. The sinks modelled here do not call back into the book.
- The order of bookkeeping when a resting order is used up: the best price is updated before the index erase and the release, not after. No code runs in between.
- Repetition: the removal code of `cancel` and of both matching loops is written once (`Withdraw`, `Retire`), and so is the probing loop of `insert` and `find_index` (`Probe`).
- The 64-bit mixing in `bucket`: an arbitrary function of the key.
- Behaviour of ReplaceOrder, Market, IOC and FOK beyond their rejection; the source only rejects them.
- Command types and enumerators outside their enumerations: not representable, so the critical log branch of `process` and the names `UNKNOWN` are missing.
- Log messages, timestamps, log formatting, files, flushing and sleeping.
- Weak memory: the atomic operations of the ring and of the drop counter are interleaved one at a time, with stale local copies.
- A producer that logs while the logger is being destroyed: the stop request comes between two records and no record follows it.
- `EngineEventDispatcher`, several gateways on one engine, and a gateway registered twice.
- The process-wide `Sequencer`: a counter of the gateway.
- Reading standard input, and the exit status of the command line.
