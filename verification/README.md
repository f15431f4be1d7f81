# A verified model of the matching engine

The engine is a fixed-capacity central limit order book (`FixedClob`) fed by commands through a
single-producer/single-consumer ring. This project models both and proves what they are for.

## The book

`Matcher.dfy` is the book as a user thinks of it: per side, one sequence of resting orders in
price-time priority, and `Match`, `Add`, `Submit` and `Cancel` as functions on it. `MatchingLaws.dfy`
and `RunLaws.dfy` prove what these functions mean: the outcome of a match is the only one that
price-time priority allows; a refused submit leaves no trace; the book never crosses; executions are
bounded by accepted orders; quantity is conserved. `TimePriority.dfy` follows two resting orders over a
run: priority, once gained, is kept until one of them leaves. `CommandLaws.dfy` says what a command does
to the book without the functions that model it.

The rest of the book is the structure itself, in the form that the source has:

- `OrderPool.dfy`, `OrderIndexTable.dfy`, `ExecutionSink.dfy`: the slot pool with its LIFO free stack,
  the open-addressing id table with tombstones, and the execution buffer, as classes over arrays.
- `FixedClob.dfy`: the class `Clob`. Its operations update the pool, the price levels, the table and
  the two cached best prices in place. Every one of them keeps `Valid()` and does to `Book()` exactly
  what the function of `Matcher` says.
- `LevelQueues.dfy`, `SlotLedger.dfy`, `ClobState.dfy`: why. All queues of a side are described by one
  ghost sequence of slots in priority order, so that links, level ends, counts and totals are facts
  about neighbours in that sequence; each in-place step is proved on such a value first.
- `LevelWalk.dfy`: following the links that are stored in the slots, from a level's head to null.
- `OrderHash.dfy`, `Bits.dfy`: both hash policies are permutations of the 64-bit words, and masking
  is reduction modulo a power of two. The table itself is proved for any hash function.
- `Workload.dfy`, `Replay.dfy`: the parametric command lists and what running them comes to, for the
  abstract book and for the structure.

## The rings and the pipeline

- `RingProtocol.dfy`: both rings as one state machine of two threads that interleave at every atomic
  load and store and every slot access. Counters are 64-bit words that wrap. An acquire load may return
  any value the counter has had since the thread's previous load of it; acquire/release on counters
  that have one writer each is what justifies that the slots published before the loaded value are
  visible.
- `RingCalls.dfy`: what each call decides and moves, step by step, in true counts.
- `SpscRing.dfy`, `SpscRingCached.dfy`: the two rings as classes, call by call.
- `Pipeline.dfy`: producer loop, ring and consumer loop together: every interleaving ends in the
  sequential outcome, and no reachable state is stuck.
- `PipelineBook.dfy`: the same with the real book and execution buffer at the consumer's end.
- `Fairness.dfy`: under every fair schedule the pipeline does finish, however often a push or a pop fails.
- `IndexQueue.dfy`: the pipeline whose queue carries 32-bit positions instead of the commands.

`Types.dfy` holds the shared types; `SimdScan.dfy` is the search for the next non-zero level, word by
word and by blocks of 8-lane masks.

## What the code does not promise

Three things that one might expect are false, and stay false here: a level's reported quantity is a
64-bit word, so it equals the sum of its orders exactly when that sum fits
(`RunLaws.ShownQuantityFits`, `RunLaws.ShownQuantityCanWrap`); `add_order` called directly does not
match, so it keeps an uncrossed book uncrossed exactly when the price does not cross
(`RunLaws.AddUncrossedIff`, `RunLaws.DirectAddsCanCross`); and a pipeline whose queue carries 32-bit
positions has the outcome of the list as those positions read it, which is the sequential outcome for
every list exactly up to 2^32 commands (`IndexQueue.IndexPipelineIsAsRead`,
`IndexQueue.IndexQueueIsSequentialIff`; `IndexQueue.LongListGoesWrong` has a longer list that goes wrong),
while the producer that sends them stops only below that (`IndexQueue.IndexProducerEnds`).

Assumptions taken from the code: ids that are looked up are non-zero (`src/order_index.hpp:43`), the
price range is non-empty and its size fits in 64 bits (`src/fixed_clob.hpp:159-162`), the number of
orders is a power of two (`src/fixed_clob.hpp:355`, `src/order_index.hpp:38`) below the null index
(`src/types.hpp:13`), and a sink has room for what it is given (`src/execution_sink.hpp:29`); the last
one is then proved to hold for a buffer reserved as the benchmarks reserve it.

## Model

| member | source | states |
|---|---|---|
| `MatchingLaws.MatchIsPriceTimeFill` | src/fixed_clob.hpp:197-230 | a match fills in price-time priority: the i-th execution is with the i-th resting order, at its price and within the limit; only the last may be partial; it stops only when spent or nothing crosses; the rest is what was not taken |
| `MatchingLaws.PriceTimeFillIsUnique` | src/fixed_clob.hpp:197-230 | any outcome that meets that priority specification is the computed one |
| `MatchingLaws.ExecutionPricesAreMonotone` | src/fixed_clob.hpp:200-203 | execution prices never improve for the incoming order from one to the next |
| `MatchingLaws.BestPriceIsBest` | src/fixed_clob.hpp:279-289 | the front of a side has price p iff some order has p and none has a better price |
| `MatchingLaws.BestLevelIsBest` | src/fixed_clob.hpp:86-102 | the best level is (p, q) iff some order has p, no bid is higher (no ask lower), and q is the 64-bit sum of the quantities at p; none iff the side is empty |
| `MatchingLaws.FrontIdIsFirst` | src/fixed_clob.hpp:132-143 | the front order of a price is the first order that has it, none iff there is none |
| `MatchingLaws.BackIdIsLast` | src/fixed_clob.hpp:145-156 | the back order of a price is the last order that has it, none iff there is none |
| `LevelQueues.CountSumInsert` | src/fixed_clob.hpp:275-276 | an inserted order counts one, and its quantity, at its own price and nothing at any other |
| `LevelQueues.CountSumRemove` | src/fixed_clob.hpp:311-312 | a removed order counts one, and its quantity, less at its own price |
| `LevelWalk.AtPriceSums` | src/fixed_clob.hpp:275-276 | the sum at a price is the whole quantity of the orders that have it |
| `MatchingLaws.StepKeeps` | src/fixed_clob.hpp:24-84 | every operation keeps both sides sorted, quantities positive, ids unique across both sides, and the capacity |
| `MatchingLaws.RunKeeps` | src/fixed_clob.hpp:24-84 | so does every run |
| `RunLaws.SubmitAllOrNothing` | src/fixed_clob.hpp:24-60 | a submit is accepted iff it is valid, its id is not live, and a slot is free or it crosses the best opposite price; refused, it has emitted nothing and changed nothing |
| `RunLaws.SubmitSplitsQuantity` | src/fixed_clob.hpp:35-41 | an accepted submit's quantity is exactly its executions plus the residual resting under its id |
| `RunLaws.AddThenCancelIsIdentity` | src/fixed_clob.hpp:44-84 | cancelling a just added order returns to the very same book |
| `RunLaws.AddQueuesBehind` | src/fixed_clob.hpp:44-74 | an add is accepted iff valid, with a free slot and a fresh id; it queues whole behind all of the same or a better price and before all worse, and nothing else moves |
| `RunLaws.CancelRemovesOne` | src/fixed_clob.hpp:76-84 | a cancel is accepted iff the id is live; it takes out that order, which is then no longer live, and nothing else moves |
| `CommandLaws.LimitCommandTradesAndRests` | bench/bench_pipeline.cpp:116-118 | a limit command is accepted iff it has quantity, its price is in range, its id is not live, and a slot is free or it meets the other side; it then trades by price-time priority and rests what is left under its id and price; refused, it does nothing |
| `CommandLaws.CancelCommandRemovesOne` | bench/bench_pipeline.cpp:119-121 | a cancel command is accepted iff its id is live; it takes out that one order, on whichever side, never trades, and moves nothing else |
| `CommandLaws.DirectAddOnlyRests` | src/fixed_clob.hpp:44-74 | a direct add rests whole at its priority position and never trades |
| `CommandLaws.CommandsNeverCross` | bench/bench_pipeline.cpp:109-124 | from an uncrossed book, no command list lets any bid reach any ask |
| `TimePriority.MatchRespects` | src/fixed_clob.hpp:206-230 | a match that leaves x resting has traded with nothing behind x, and what is behind x stays behind it |
| `TimePriority.StepRespects` | src/fixed_clob.hpp:24-84 | so does every operation |
| `TimePriority.PriorityIsKept` | src/fixed_clob.hpp:24-84 | over any run: from the moment x has priority over y until x or y leaves, x stays ahead of y at its price, and y trades only once x is filled or cancelled |
| `RunLaws.AddUncrossedIff` | src/fixed_clob.hpp:44-74 | a direct add keeps the book uncrossed iff it does not cross the best opposite price |
| `RunLaws.DirectAddsCanCross` | src/fixed_clob.hpp:44-74 | two direct adds that cross the book |
| `RunLaws.SubmitKeepsUncrossed` | src/fixed_clob.hpp:24-42 | a submit keeps best bid below best ask |
| `RunLaws.NeverCrossed` | src/fixed_clob.hpp:24-84 | no run of submits and cancels crosses or locks the book |
| `RunLaws.StepPaysForExecutions` | src/fixed_clob.hpp:24-60 | one operation's executions are paid for by the orders that leave and the order accepted |
| `RunLaws.ExecutionsAreBounded` | src/execution_sink.hpp:27-31 | over any run, executions plus resting orders never exceed the initial ones plus accepted orders, so never the number of commands on a new book |
| `RunLaws.StepConserves` | src/fixed_clob.hpp:206-239 | one operation moves quantity between accepted, resting, cancelled and twice traded without loss |
| `RunLaws.QuantityIsConserved` | src/fixed_clob.hpp:24-84 | over any run, accepted quantity (with what rested before) is resting + cancelled + 2 x traded |
| `RunLaws.LedgerAccepts` | src/fixed_clob.hpp:24-84 | what the balance calls accepted is the quantity of the accepted submits and adds, which decides what it calls cancelled |
| `RunLaws.ShownQuantityFits` | src/fixed_clob.hpp:104-110 | the 64-bit total of a level equals the sum of its orders iff the sum is below 2^64 |
| `RunLaws.ShownQuantityCanWrap` | src/fixed_clob.hpp:275-276 | two accepted orders after which a level of two orders reports quantity 0 |
| `FixedClob.Clob.constructor` | src/fixed_clob.hpp:18-22 | the new structure represents the empty book of that geometry |
| `FixedClob.Clob.SubmitLimitOrder` | src/fixed_clob.hpp:24-42 | result, executions appended to the sink and new book are those of the abstract submit; the invariant is kept |
| `FixedClob.Clob.AddOrder` | src/fixed_clob.hpp:44-74 | result and new book are those of the abstract add, including refusal with nothing changed |
| `FixedClob.Clob.CancelOrder` | src/fixed_clob.hpp:76-84 | result and new book are those of the abstract cancel |
| `FixedClob.Clob.MatchOrder` | src/fixed_clob.hpp:197-204 | executions, quantity left and remaining opposite side are those of the recursive matcher; the loop ends because the cached best level is never empty |
| `FixedClob.Clob.MatchAtLevel` | src/fixed_clob.hpp:206-230 | trading through one level leaves the whole match's outcome unchanged, always trades, and ends with the order spent or the level empty |
| `FixedClob.Clob.TradeWithHead` | src/fixed_clob.hpp:209-229 | one turn of the level loop trades with the order of highest priority |
| `FixedClob.Clob.FillFront` | src/fixed_clob.hpp:213-221 | a partial fill takes the traded quantity off the front order and nothing else |
| `FixedClob.Clob.ReduceOrderQuantity` | src/fixed_clob.hpp:232-239 | the slot and level writes of a partial fill |
| `FixedClob.Clob.RemoveOrderByIndex` | src/fixed_clob.hpp:241-256 | exactly the one order leaves the abstract book; pool, queues, table and best price agree again |
| `FixedClob.LinkAtTail` | src/fixed_clob.hpp:258-277 | the slot and level writes of an append, branch by branch |
| `FixedClob.LinkPast` | src/fixed_clob.hpp:291-314 | the slot and level writes of an unlink, branch by branch |
| `FixedClob.Clob.AppendToLevel` | src/fixed_clob.hpp:258-277 | the side becomes what those writes make it, with the order at its place in the priority sequence |
| `FixedClob.Clob.UpdateBestAfterAdd` | src/fixed_clob.hpp:279-289 | the cached best price is again the best price after the insertion |
| `FixedClob.Clob.UnlinkFromLevel` | src/fixed_clob.hpp:291-314 | the side becomes what those writes make it, without that position |
| `FixedClob.Clob.RefreshBestAfterEmptyLevel` | src/fixed_clob.hpp:316-346 | the scan restores the best price, or none exactly when the side is empty |
| `FixedClob.Clob.AllocateNamed` | src/fixed_clob.hpp:49-59 | a slot is taken and named unless the pool is empty or the id is live; refused, both are as before, and a table of twice the slots never refuses a fresh id |
| `FixedClob.Clob.RestOrder` | src/fixed_clob.hpp:61-73 | filling, queueing and best-price update together are the abstract add |
| `FixedClob.Clob.Forget` | src/fixed_clob.hpp:250-251 | the id leaves the table and the slot tops the free stack; the queues are untouched |
| `FixedClob.Clob.AddResidual` | src/fixed_clob.hpp:41 | the add that ends a submit reports nothing |
| `FixedClob.Clob.Detach` | src/fixed_clob.hpp:242-251 | unlink, erase and release together |
| `FixedClob.Clob.RefreshIfEmpty` | src/fixed_clob.hpp:253-255 | the best price is right again whether or not the level emptied |
| `FixedClob.Clob.BestOfView` | src/fixed_clob.hpp:181-195 | in every valid structure the cached best price is the front order's, and its level is not empty |
| `FixedClob.Clob.CachedBestIsExact` | src/fixed_clob.hpp:279-346 | the cache holds p iff p's level has orders and no better level has; it is absent iff all levels are empty |
| `FixedClob.Clob.EachSlotOnce` | src/order_pool.hpp:11-33 | every pool slot is exactly once in a level queue of one side or on the free stack |
| `FixedClob.Clob.BookWellFormed` | src/fixed_clob.hpp:44-84 | the book a valid structure represents satisfies everything the run laws require |
| `FixedClob.Clob.LevelIsLinked` | src/fixed_clob.hpp:258-277 | from the head of a level, the stored next links lead through exactly the orders of its price in arrival order, and to null after order_count of them |
| `FixedClob.Clob.LinksPointBack` | src/fixed_clob.hpp:291-314 | the stored neighbour of any queued slot has the same price and points back |
| `FixedClob.Clob.LevelMeans` | src/fixed_clob.hpp:104-156 | every header field of a level in terms of the abstract book |
| `FixedClob.Clob.BestLevel` | src/fixed_clob.hpp:86-102 | the highest bid or lowest ask that any order has, with the sum of the quantities at it modulo 2^64; none iff the side is empty |
| `FixedClob.Clob.QuantityAt` | src/fixed_clob.hpp:104-110 | for every price, in or off the range, the sum of the quantities at it modulo 2^64 |
| `FixedClob.Clob.OrderCountAt` | src/fixed_clob.hpp:112-118 | for every price, the number of orders at it |
| `FixedClob.Clob.ActiveOrders` | src/fixed_clob.hpp:120-122 | the number of resting orders |
| `FixedClob.Clob.AvailableSlots` | src/fixed_clob.hpp:124-126 | capacity less resting orders |
| `FixedClob.Clob.FrontOrderId` | src/fixed_clob.hpp:132-143 | for every price, the earliest order at it |
| `FixedClob.Clob.BackOrderId` | src/fixed_clob.hpp:145-156 | for every price, the latest order at it |
| `LevelQueues.AppendKeeps` | src/fixed_clob.hpp:258-277 | append keeps links, ends, counts and totals, and queues the order behind all it has no priority over |
| `LevelQueues.UnlinkKeeps` | src/fixed_clob.hpp:291-314 | unlink keeps links, ends, counts and totals, and takes out exactly that order |
| `LevelQueues.ReduceKeeps` | src/fixed_clob.hpp:232-239 | a partial fill keeps links, ends, counts and totals, and changes that one quantity |
| `LevelWalk.LevelIsWalked` | src/fixed_clob.hpp:258-277 | the walk along next from a level's head, as a fact about the slots and headers of one side |
| `LevelWalk.LinksAreMutual` | src/fixed_clob.hpp:291-314 | next and prev of neighbours are mutual and stay within one price |
| `LevelQueues.QueueBoundary` | src/fixed_clob.hpp:258-277 | an order queues right behind the last of its price, and nothing of its price is behind it |
| `SlotLedger.EverySlotOnce` | src/order_pool.hpp:11-33 | disjoint repetition-free slot lists that fill the pool hold every slot exactly once |
| `SlotLedger.LookupInsert` | src/fixed_clob.hpp:56-59 | naming a fresh id keeps the table a bijection between live ids and queued slots |
| `SlotLedger.LookupRemove` | src/fixed_clob.hpp:250-251 | so does forgetting one |
| `SlotLedger.LiveIffNamed` | src/fixed_clob.hpp:30-32 | an id is in the table iff an order with it rests |
| `ClobState.AddedIsAdd` | src/fixed_clob.hpp:44-74 | the add step on the whole representation is the abstract add |
| `ClobState.RemovedIsRemove` | src/fixed_clob.hpp:241-256 | the removal step takes exactly the order at that priority position out |
| `ClobState.ReducedIsReduce` | src/fixed_clob.hpp:232-239 | the partial-fill step changes exactly that order's quantity |
| `ClobState.HeadIsFront` | src/fixed_clob.hpp:209-211 | the head of a non-empty level with nothing better is the order with the highest priority |
| `ClobState.BestLevelNotEmpty` | src/fixed_clob.hpp:181-188 | a cached best price names a non-empty level and nothing is better |
| `ClobState.LevelsAfterRemove` | src/fixed_clob.hpp:253-255 | after a removal the best price is right unless its own level emptied; then every order left is worse |
| `ClobState.LevelEnds` | src/fixed_clob.hpp:132-156 | head and tail of a level are its earliest and latest orders, null iff there are none |
| `ClobState.FindNamed` | src/fixed_clob.hpp:76-84 | a named id sits at its slot's position, on the side that queues the slot |
| `OrderIndexTable.FixedOrderIndex.constructor` | src/order_index.hpp:33-40 | an empty map; each id's home is its hash masked by the capacity |
| `OrderIndexTable.MaskedHome` | src/order_index.hpp:45 | an id's home is its masked hash, inside the table |
| `OrderIndexTable.FixedOrderIndex.Insert` | src/order_index.hpp:42-73 | succeeds iff the key is absent and not every slot is occupied; adds exactly that key |
| `OrderIndexTable.FixedOrderIndex.ProbeForInsert` | src/order_index.hpp:48-66 | the probe detects a duplicate, or finds the slot to write, or proves the table full |
| `OrderIndexTable.FixedOrderIndex.Put` | src/order_index.hpp:68-72 | the writes of an insert keep the representation |
| `OrderIndexTable.FixedOrderIndex.Find` | src/order_index.hpp:75-91 | the map's value, none iff absent |
| `OrderIndexTable.FixedOrderIndex.Probe` | src/order_index.hpp:78-90 | the probe ends at the key's slot, and finds none iff the key is absent |
| `OrderIndexTable.FixedOrderIndex.Contains` | src/order_index.hpp:113-115 | membership |
| `OrderIndexTable.FixedOrderIndex.Erase` | src/order_index.hpp:93-111 | succeeds iff present; removes exactly that key |
| `OrderIndexTable.FixedOrderIndex.Bury` | src/order_index.hpp:103-107 | turning a slot into a tombstone keeps the representation |
| `OrderIndexTable.FixedOrderIndex.Clear` | src/order_index.hpp:117-120 | no key survives |
| `OrderIndexTable.NextProbe` | src/order_index.hpp:48 | the masked increment is one step of the cyclic probe path |
| `OrderIndexTable.Table.ProbeMisses` | src/order_index.hpp:81-83 | a probe that meets an empty slot, or has gone all the way round, has missed the key for good |
| `OrderIndexTable.Table.WriteKeeps` | src/order_index.hpp:68-72 | writing a free or deleted slot on a path without empty slots keeps map and paths |
| `OrderIndexTable.Table.EraseKeeps` | src/order_index.hpp:104-106 | a tombstone never breaks another key's path |
| `OrderIndexTable.Table.FullCircle` | src/order_index.hpp:64-66 | a circle of occupied slots means a full table |
| `OrderHash.XorShiftInvolution` | src/order_index.hpp:14 | a xor-shift by at least 32 undoes itself |
| `OrderHash.MulInverse` | src/order_index.hpp:22-24 | multiplication by an odd constant is undone by its inverse modulo 2^64 |
| `OrderHash.FastHashIsPermutation` | src/order_index.hpp:12-17 | the fast hash is its own inverse, so a permutation of the 64-bit ids |
| `OrderHash.RobustHashIsPermutation` | src/order_index.hpp:19-28 | the robust hash has a two-sided inverse, so it is a permutation too |
| `OrderHash.FastHashBits` | src/order_index.hpp:13-15 | bit k of the fast hash is the id's bit k, turned over when its bit k+32 is set |
| `OrderHash.RobustHashWords` | src/order_index.hpp:20-26 | the robust hash is the last of five words: folded bit by bit over 33 places, times the first constant modulo 2^64, folded, times the second, folded |
| `OrderHash.RobustHashIs` | src/order_index.hpp:20-26 | and any five words so related end in the robust hash |
| `OrderHash.FastHashValue` | src/order_index.hpp:13-15 | its value at 2^32 |
| `OrderHash.RobustHashValue` | src/order_index.hpp:20-26 | its value at 1 |
| `OrderHash.CollideOnlyThroughMask` | src/order_index.hpp:45 | distinct ids have distinct hash words and share a home iff those agree modulo the capacity |
| `Bits.MaskIsMod` | src/order_index.hpp:145-147 | masking with 2^k - 1 is reduction modulo 2^k |
| `Bits.WrapThenMask` | src/spsc_ring.hpp:81-83 | masking a wrapped counter gives the true position modulo the capacity |
| `OrderPool.Pool.constructor` | src/order_pool.hpp:11-17 | all slots free, each once |
| `OrderPool.Pool.Allocate` | src/order_pool.hpp:19-26 | pops the last released slot, none iff there is none |
| `OrderPool.Pool.Release` | src/order_pool.hpp:28-33 | pushes the slot |
| `OrderPool.Pool.Used` | src/order_pool.hpp:53-55 | slots not on the free stack |
| `OrderPool.Pool.Available` | src/order_pool.hpp:49-51 | slots on the free stack |
| `ExecutionSink.ExecutionBuffer.Reserve` | src/execution_sink.hpp:12-25 | grows, never shrinks, keeps the contents |
| `ExecutionSink.ExecutionBuffer.EmplaceBack` | src/execution_sink.hpp:27-31 | appends exactly that execution, given room |
| `ExecutionSink.ExecutionBuffer.Clear` | src/execution_sink.hpp:37-39 | empty afterwards |
| `Replay.Apply` | bench/bench_pipeline.cpp:111-123 | one command on the structure is one step of the abstract book, which the command laws then describe |
| `Replay.RunCommands` | bench/bench_pipeline.cpp:109-124 | a command list on the structure is the abstract run: results, book and executions, refused commands passed over |
| `Replay.ApplyOp` | src/fixed_clob.hpp:24-84 | one operation on the structure, direct adds included, is one step of the abstract book |
| `Replay.RunOps` | src/fixed_clob.hpp:24-84 | so is every sequence of operations |
| `Replay.RunTwins` | src/fixed_clob.hpp:12-14 | two structures with the same book, whatever their slots, tombstones and hash, answer every operation of any sequence alike, report the same executions and stay the same book |
| `Replay.Ask` | src/fixed_clob.hpp:86-156 | the answers of all public queries, each as a function of the abstract book |
| `Replay.AskTwins` | src/fixed_clob.hpp:86-156 | so two structures with the same book answer every query alike |
| `Replay.NewBook` | bench/bench_pipeline.cpp:84-88 | a new book is empty and a new sink has the reserved room |
| `Replay.Replay` | src/execution_sink.hpp:12-31 | a sink with room for exactly as many executions as there are commands never meets its capacity assertion, for any command list |
| `Replay.ReplayFullMatch` | tools/profile_pipeline_latency.cpp:119-128 | the full-match list on a new structure: no command is refused, n reserved executions suffice, the n pairings are reported, the book ends empty |
| `Workload.MakeAddOnlyCommands` | src/workload.hpp:6-31 | command i in plain numbers: id i+1, quantity i mod 100 + 1, odd i a buy at 10000 - 37i mod 1024, even i a sell at 10001 + 37i mod 1024 |
| `Workload.MakeRestingAsksCommands` | src/workload.hpp:33-55 | command i in plain numbers: a sell with id i+1 and quantity i mod 100 + 1 at 10001 + 37i mod 1024 |
| `Workload.MakeNonCrossingBuysCommands` | src/workload.hpp:57-79 | command i in plain numbers: a buy with id i+1 and quantity i mod 100 + 1 at 10000 - 37i mod 1024 |
| `Workload.MakeFullMatchCommands` | src/workload.hpp:81-110 | n sells and then n buys at 10000 in plain numbers: ids 1..2n, quantities i mod 100 + 1 |
| `Workload.OffsetIs` | src/workload.hpp:17 | 64-bit wrap-around does not show in 37i mod 1024 |
| `Workload.CommandsAre` | src/workload.hpp:14-27 | the three parametric commands in plain numbers |
| `Workload.FullMatchIs` | src/workload.hpp:85-107 | the two halves of the full-match list and their pairings in plain numbers |
| `Workload.OffsetsDiffer` | src/workload.hpp:17 | of any 1024 consecutive commands no two have the same offset |
| `Workload.PricesDiffer` | src/workload.hpp:17-18 | so no two of them on one side have the same price |
| `Workload.ListsSpread` | src/workload.hpp:6-79 | after up to 1024 commands of any of the three lists no level has more than one order |
| `Workload.FullMatchOutcome` | src/workload.hpp:81-110 | for every n within capacity: all accepted, order i paired with order n+i for its whole quantity, book empty at the end |
| `Workload.NonCrossingOutcome` | src/workload.hpp:6-79 | any list of fresh ids whose buys stay below its sells trades nothing and rests every order with its price and whole quantity, and no other |
| `Workload.AddOnlyOutcome` | src/workload.hpp:6-79 | the three non-matching lists are of that kind: n orders rest, nothing trades |
| `RingProtocol.StepKeepsInv` | src/spsc_ring_cached.hpp:18-100 | every atomic step of either thread keeps cached_tail <= tail <= cached_head <= head <= cached_tail + Capacity, the words and the slot contents |
| `RingProtocol.DecideTailKeeps` | src/spsc_ring_cached.hpp:53-64 | a push that goes ahead on any view of the tail, stale or not, keeps the invariant, room for what it is about to write included |
| `RingProtocol.WriteSlotData` | src/spsc_ring_cached.hpp:71-73 | a slot write adds the next item behind the queue and disturbs nothing in it |
| `RingProtocol.ReadSlotValue` | src/spsc_ring_cached.hpp:94-96 | the slot read next holds the item published at that position |
| `RingCalls.TrustTailIff` | src/spsc_ring_cached.hpp:53-62 | the cached ring trusts its copy of the tail iff that leaves room; the plain ring never does |
| `RingCalls.LoadTailIff` | src/spsc_ring_cached.hpp:55-57 | it loads the tail iff it does not trust the copy, and gets a value between the last one loaded and the true one |
| `RingCalls.PushWritesExactly` | src/spsc_ring_cached.hpp:64-69 | a push goes on to write exactly min(room by its copy, offered) items, and returns 0 iff that is 0 |
| `RingCalls.PushPublishesExactly` | src/spsc_ring_cached.hpp:71-76 | it publishes iff it has written them all, and publishes exactly those, in order |
| `RingCalls.TrustHeadIff` | src/spsc_ring_cached.hpp:81-87 | the cached ring trusts its copy of the head iff that shows something; the plain ring never does |
| `RingCalls.LoadHeadIff` | src/spsc_ring_cached.hpp:82 | it loads the head iff it does not trust the copy |
| `RingCalls.PopReadsExactly` | src/spsc_ring_cached.hpp:89-92 | a pop goes on to read exactly min(items by its copy, asked for), and returns 0 iff that is 0 |
| `RingCalls.PopTakesExactly` | src/spsc_ring_cached.hpp:94-99 | it gives up the slots iff it has read them all, and has taken exactly the first of the queue, in order |
| `RingProtocol.RingIsSafe` | src/spsc_ring_cached.hpp:18-100 | in every run, what was consumed is a prefix of what was published and the rest, at most Capacity items, is in the ring |
| `RingProtocol.NoOverwrite` | src/spsc_ring_cached.hpp:71-75 | the producer's next write hits no slot that holds an unconsumed item |
| `RingProtocol.NoRace` | src/spsc_ring_cached.hpp:71-98 | the next write and the next read are never in the same slot |
| `RingProtocol.RefinesQueue` | src/spsc_ring.hpp:18-78 | each step is a step of a bounded FIFO queue: enqueue a prefix of the batch, dequeue from the front, or nothing |
| `RingProtocol.StaleIsConservative` | src/spsc_ring_cached.hpp:53-64 | a stale copy never makes a call take more than the true room or the true items |
| `RingProtocol.RefusalsAreHonest` | src/spsc_ring.hpp:18-35 | with a fresh load a call takes exactly the room or the items there are |
| `RingProtocol.WrappedDifference` | src/spsc_ring.hpp:22 | the difference of two wrapped counters is the true occupancy |
| `RingProtocol.WrappedEqual` | src/spsc_ring.hpp:35 | wrapped counters are equal iff the true ones are |
| `RingProtocol.WrappedSlot` | src/spsc_ring.hpp:57-59 | the masked sum of wrapped counter and index is the true position modulo the capacity |
| `RingProtocol.SlotsDiffer` | src/spsc_ring.hpp:57-59 | positions less than a capacity apart use different slots |
| `SpscRing.Ring.constructor` | src/spsc_ring.hpp:16 | an empty queue |
| `SpscRing.Ring.Push` | src/spsc_ring.hpp:18-29 | enqueues iff not full |
| `SpscRing.Ring.Pop` | src/spsc_ring.hpp:31-42 | dequeues the front iff not empty |
| `SpscRing.Ring.PushMany` | src/spsc_ring.hpp:44-61 | enqueues the first min(room, offered) items in order |
| `SpscRing.Ring.PopMany` | src/spsc_ring.hpp:63-78 | moves the first min(items, asked) items out and leaves the rest of the buffer alone |
| `SpscRing.WriteItems` | src/spsc_ring.hpp:55-57 | the copy loop fills the slots behind the queue and disturbs none of it |
| `SpscRing.ReadItems` | src/spsc_ring.hpp:72-74 | the copy loop reads the front of the queue in order |
| `SpscRingCached.CachedRing.constructor` | src/spsc_ring_cached.hpp:16 | an empty queue |
| `SpscRingCached.CachedRing.Push` | src/spsc_ring_cached.hpp:18-32 | enqueues iff truly not full, however stale the copy |
| `SpscRingCached.CachedRing.Pop` | src/spsc_ring_cached.hpp:34-48 | dequeues the front iff truly not empty, however stale the copy |
| `SpscRingCached.CachedRing.PushMany` | src/spsc_ring_cached.hpp:50-76 | takes what the copy leaves room for, or what a reload leaves when the copy says full; 0 iff truly full or nothing offered |
| `SpscRingCached.CachedRing.PopMany` | src/spsc_ring_cached.hpp:78-100 | moves out what the copy shows, or what a reload shows when it shows nothing; 0 iff truly empty or nothing asked |
| `SpscRingCached.ViewsAreCounts` | src/spsc_ring_cached.hpp:53 | what each side computes from its copy is the true room or items as of that copy |
| `SpscRingCached.StillCopies` | src/spsc_ring_cached.hpp:64-75 | a side that goes no further than its copy allows leaves both copies good |
| `Pipeline.TurnKeepsInv` | bench/bench_pipeline.cpp:202-263 | every turn of either loop keeps: published is a prefix of the list, the batch follows what was processed, and the outcome is the sequential one so far |
| `Pipeline.PushOffersBatch` | bench/bench_pipeline.cpp:433-438 | the producer offers min(batch size, what is left) payloads, the next ones, whenever it has no push under way |
| `Pipeline.PopAsksForBatch` | bench/bench_pipeline.cpp:447-448 | the consumer asks for one batch whenever it is not done and has neither a pop nor a batch under way |
| `Pipeline.PipelineIsSequential` | bench/bench_pipeline.cpp:202-263 | for every list, ring, capacity, batch sizes and interleaving, the finished outcome is the sequential run's |
| `Pipeline.PipelinesAgree` | bench/bench_pipeline.cpp:139-475 | any two finished pipelines over the same list and book have the same outcome |
| `Pipeline.DirectJobIsOk` | bench/bench_pipeline.cpp:92-124 | queueing the commands themselves meets the pipeline's requirement |
| `IndexQueue.IndexPipelineIsAsRead` | bench/bench_pipeline.cpp:152-191 | every finished run of the index pipeline, for any list, ring and interleaving, has the outcome of the list in which each command is the one at its position modulo 2^32 |
| `IndexQueue.ReadsRightIff` | bench/bench_pipeline.cpp:152-191 | on a book with a free slot where id 1 is not live: that list has the outcome of the list itself, for every askable list of n commands, iff n is at most 2^32 |
| `IndexQueue.OneIdListReadsWrong` | bench/bench_pipeline.cpp:152-191 | a list longer than 2^32, legal for the book, whose order number 2^32 is accepted in the list and missed as read |
| `IndexQueue.LongListGoesWrong` | bench/bench_pipeline.cpp:152-191 | a finished run of the index pipeline, on either ring, whose outcome is not the list's |
| `IndexQueue.IndexQueueIsSequentialIff` | bench/bench_pipeline.cpp:152-191 | so all finished runs over all askable lists of n commands have the sequential outcome iff n is at most 2^32 |
| `IndexQueue.FeedStepKeeps` | bench/bench_pipeline.cpp:156-161 | every ring step under the index producer's loop keeps its counter at the number of pushes modulo 2^32 |
| `IndexQueue.IndexProducerEnds` | bench/bench_pipeline.cpp:156-161 | in every run the loop pushes the positions in order; below 2^32 commands its guard fails exactly when all are pushed, from 2^32 on it never fails |
| `Pipeline.Advance` | bench/bench_pipeline.cpp:428-465 | in every reachable unfinished state some thread has a step that brings the end nearer |
| `Pipeline.CanAlwaysFinish` | bench/bench_pipeline.cpp:428-465 | from every reachable state the pipeline can run to the end |
| `Pipeline.AnyRunCanFinish` | bench/bench_pipeline.cpp:428-465 | every partial run can be continued to the end, with the sequential outcome |
| `Pipeline.FullMatchPipeline` | bench/bench_pipeline.cpp:412-475 | the full-match benchmark never has more than n executions at any moment, and ends with exactly the n pairings and an empty book |
| `Fairness.ConsumerTurnHelps` | bench/bench_pipeline.cpp:235-252 | with something to consume in sight, any turn of the consumer does work or brings it nearer to doing some |
| `Fairness.ProducerTurnHelps` | bench/bench_pipeline.cpp:433-438 | with the ring seen empty and something to push, so does any turn of the producer |
| `Fairness.FairPipelineFinishes` | bench/bench_pipeline.cpp:412-465 | under every weakly fair infinite schedule in which published counters are seen in the end, the consumer processes every command with the sequential outcome and both loops end: failed pushes and pops are not retried for ever |
| `Fairness.FairScheduleExists` | bench/bench_pipeline.cpp:412-465 | every pipeline has such a schedule |
| `PipelineBook.RoomToApply` | src/execution_sink.hpp:27-31 | at every reachable point where a command is about to be applied, a sink with room for the whole list's executions has room for that command's |
| `PipelineBook.ApplyNext` | bench/bench_pipeline.cpp:235-252 | the consumer's loop body on the real book and sink keeps them at the pipeline's outcome |
| `PipelineBook.RunPipeline` | bench/bench_pipeline.cpp:202-263 | the whole pipeline on the real book, for any schedule: no step finds the sink full, and a finished run leaves book and sink as the list applied in order does |
| `PipelineBook.RunFullMatchPipeline` | bench/bench_pipeline.cpp:412-475 | the full-match benchmark from a new book with a sink reserved for n: never full, n pairings, book empty |
| `SimdScan.NextNonzeroIsFirst` | src/simd_scan.hpp:9-16 | the scan's answer is the one before which, from start on, there are only zeros |
| `SimdScan.ScalarFindNextNonzero` | src/simd_scan.hpp:9-16 | returns that answer |
| `SimdScan.Avx2FindNextNonzero` | src/simd_scan.hpp:18-70 | returns the same answer, for every array, n, start and 1 to 8 blocks |
| `SimdScan.BlockMask` | src/simd_scan.hpp:35-45 | the assembled word is the mask of all the block's lanes |
| `SimdScan.ZeroMaskBit` | src/simd_scan.hpp:39-42 | bit k of a mask is set iff lane k is zero |
| `SimdScan.MaskOfBlocks` | src/simd_scan.hpp:44 | shifting a vector's mask above the mask so far and or-ing is the mask of the concatenation |
| `SimdScan.NextVector` | src/simd_scan.hpp:44 | the same within a 64-bit word: the shift loses nothing |
| `SimdScan.FullIsAllOnes` | src/simd_scan.hpp:29 | the constant is all ones, for 8 blocks too |
| `SimdScan.BlockScan` | src/simd_scan.hpp:47-49 | a full mask skips the block; otherwise the trailing ones lead to the first non-zero word |

## Left out

- `LatencyStats`, the other tools' timing and printing, and all performance claims: floating point and measurement.
- Threads, spin-start flags, CPU pinning, clocks and the benchmark harness; of `bench/bench_pipeline.cpp` only the push, pop and apply loops are modelled, and not the queue-only variants, which discard what they pop.
- C++ object layout, alignment, ownership and the narrowing of indices to `std::size_t`; memory is never exhausted.
- The C++ memory model beyond stale monotone loads of counters that have one writer each. A single push or pop is, in the interleaved machine, a call that offers or asks for one item.
- `NullExecutionSink` and vectors as sinks: the book is proved with `ExecutionBuffer`, the one sink with a precondition.
- One-line getters: `empty`, `full`, `size` and `capacity` of the pool, the table and the buffer.
- The AVX2 intrinsics: comparison with zero and movemask are the specified function `ZeroMask`; an array index never reaches 2^64.
- The source's loops and functions are cut into smaller methods where a proof needs a boundary (`Probe` is the loop of both `find` and `erase`, `TradeWithHead` the body of the loop in `match_at_level`, `Forget` the two lines after the unlink, `WriteItems` and `ReadItems` the copy loops of both rings); the branches and their order are the source's.
- What an index producer of 2^32 commands or more pushes behind the positions that the consumer pops: the composed pipeline stops offering there, and only the producer's loop on its own (`IndexQueue.IndexProducerEnds`) goes on.
- Replay.RunTwins: the two books and sinks share no objects, since C++ book objects own all their parts.
