# A Dafny model of the concurrent order processor

The order processor takes orders from clients, runs every change as a transaction, matches orders on a price-sorted
book, and writes what must survive to a versioned file. This project models its four hardest parts and proves what
they promise.

**Scheduling.** `TreeModel`, `NLinkTree` and `TreeRuns` model the dependency tree: per-object use lists, parent and child
links, the list of ready transactions and the cursor that hands them out. `NLinkTree` is the class with the loops of the
source, proved equal to the functions of `TreeModel`. `Effects`, `Scheduler`, `SchedulerData`, `SchedulerSafety` and
`SchedulerProgress` add any number of adding threads and worker tasks as a step relation, one critical section a step, and
prove serializability, the absence of lost wake-ups and deadlocks, and termination. `SchedulerUse` bounds how many ready
transactions can wait beside idle processors, and `SchedulerIdle` shows that the bound is reached.

**Matching.** `BookModel` and `OrderBook` model the book; `OrderMachine` the two-zone transition table with its guards,
actions and entry actions; `OrderRuns` whole lives of one order; `OrderLaws` the machine read by event, with its laws of
pauses, requests and corrections; `OrderWorld` many orders on one machine. `Matching` and `Engine` model the matcher and
the loop over deferred events, `Sweep` and `SweepLaw` what that loop means for limit orders and `MarketOrders` for market
orders, `Market` whole runs of a market, `Conservation` quantities and money, `Commit` transactions that go through,
`Rollback` failing ones and `RollbackOrder` the time order after them.

**Lock-free pools and the scope.** `LockFreeCache` and `ScopePool` take every atomic access as one step of any
interleaving; `RingCache` and `PoolAcquire` are the same structures used by one thread, `SoloCache` and the second half of
`PoolAcquire` tie the two views together, and `CacheJam` shows where they part for the cache. `TransactionScope` models
the arena, the savepoints and the declared objects.

**Persistence.** `Bytes`, `LogFormat` and `FileLog` model the log file as bytes, the in-place flip of a record's flag and
the replay on loading, and `LogDamage` what loading recovers from a damaged file. `Codec` and `Records` model the layouts,
the decoders and the dispatcher, `OrderCodec` the two encoders of an order field by field.

Conventions: prices are reals and quantities natural numbers below 2^32 with explicit wrap-around; ids are ranks with 0
for the invalid id, except in the file format, where they are the words themselves; exceptions are outcomes; the answers
of savers, validators, clocks and generators are parameters. In the matching part one event is followed by its
transaction and its deferred events before the next event comes, as on a single worker; with every event comes the
saver's answer to the book entry it may ask for.

Some of what one would expect of the code is false, and then the exact condition is proved: a cancelled order can come
back into the book (`OrderRuns.CancelledStaysOutIff`) and trade, an order can slip into the book unmatched and cross it
(`Market.SettleKeepsMarketIff`), matching can go on for ever (`Engine.DrainEndsIff`), a rollback
need not restore the book (`Rollback.RestoresIff`), an execution of many trades can charge too little
(`Conservation.TallyIffFits`), a correction can leave more or less than was ordered (`Conservation.CompleteIff`), a
processor can stay idle beside ready transactions (`SchedulerUse.ProcessorsAreUsed`), a market order that is executed in
full is never Filled (`MarketOrders.MarketIs`), and the lock-free cache can jam (`CacheJam.CanJamIff`).

Where comments and code differ the code is followed. The header of the pool promises a heap fallback only when the pool
is exhausted; `PoolAcquire.CoversIff` gives the exact condition. The comment on removing the last operation speaks of a
stage boundary at that operation; the code also drops the boundary of a stage that becomes empty, see
`TransactionScopeClass.StageSurvivesIff`.

## Model

| member | source | states |
|---|---|---|
| `TreeModel.AddKeepsInv` | src/NLinkedTree.cpp:179-268 | insertion of a larger key keeps all of: exact use lists, parents are the immediate predecessors in them, each parentless key once in the root list, no dangling child; and the children mirror |
| `TreeModel.RemoveKeepsInv` | src/NLinkedTree.cpp:270-466 | removal of any key, ready or blocked, keeps the same invariant |
| `TreeModel.RemovedParents` | src/NLinkedTree.cpp:296-458 | after a removal every remaining transaction waits exactly for its predecessors in the shortened use lists |
| `TreeModel.ParentsSmaller` | src/NLinkedTree.cpp:194-257 | every parent is pending, has a smaller key and shares an object |
| `TreeModel.NonEmptyHasReady` | src/NLinkedTree.cpp:194-257 | a non-empty tree has a ready transaction |
| `TreeModel.ReadyIsFirstUser` | src/NLinkedTree.cpp:194-257 | a transaction is in the root list if and only if it is the first user of each of its objects |
| `TreeModel.ReadyDisjoint` | src/NLinkedTree.cpp:194-257 | two ready transactions share no object |
| `TreeModel.RemoveKeepsMirrorIff` | src/NLinkedTree.cpp:407-456 | children links mirror parent links after a removal if and only if no waiting transaction inherits a parent it did not have |
| `TreeModel.RemoveReadyKeepsMirror` | src/NLinkedTree.cpp:407-456 | removing ready transactions, as the scheduler does, keeps the mirror |
| `TreeModel.BlockedRemovalBreaksMirror` | src/NLinkedTree.cpp:407-456 | three transactions on one object: removing the middle one leaves a parent without its child link |
| `TreeModel.AdvancedCursor` | src/NLinkedTree.cpp:554-609 | next moves the head of the undispensed suffix of the root list to the dispensed prefix |
| `TreeModel.RemovedCursor` | src/NLinkedTree.cpp:296-343 | erasing a key, the current one included, erases it from prefix and suffix and keeps the split |
| `TreeModel.AddEffect` | src/NLinkedTree.cpp:179-268 | what an insertion does to keys, root list and both parts of it |
| `TreeModel.RemoveEffect` | src/NLinkedTree.cpp:270-466 | what a removal does to keys, root list and both parts of it; the newly ready keys are new to the root list |
| `NLinkTreeClass.NLinkTree.Add` | src/NLinkedTree.cpp:179-268 | the loops compute the functional insertion; the reported count is the number of keys added to the root list; a known key changes nothing |
| `NLinkTreeClass.NLinkTree.Remove` | src/NLinkedTree.cpp:270-466 | the loops compute the functional removal, with the reported count of newly ready keys |
| `NLinkTreeClass.NLinkTree.Relink` | src/NLinkedTree.cpp:407-456 | the loop over (child, parent) pairs computes the fold over the ordered pairs |
| `NLinkTreeClass.NLinkTree.EraseUses` | src/NLinkedTree.cpp:346-405 | the loop takes the key out of the use lists and collects the pairs of its neighbours |
| `NLinkTreeClass.NLinkTree.EraseFromRoot` | src/NLinkedTree.cpp:296-343 | the key leaves the root list and the cursor falls back to the element before |
| `NLinkTreeClass.NLinkTree.RecordUses` | src/NLinkedTree.cpp:195-221 | every declared object gets the key at the end of its use list; the result are the previous last users |
| `NLinkTreeClass.NLinkTree.LinkToParents` | src/NLinkedTree.cpp:225-244 | exactly the parents get the key as a child |
| `NLinkTreeClass.NLinkTree.Next` | src/NLinkedTree.cpp:554-609 | hands out the first undispensed ready transaction, or nothing |
| `NLinkTreeClass.NLinkTree.NextAfter` | src/NLinkedTree.cpp:508-552 | the ready transaction behind a given one, or the first one |
| `NLinkTreeClass.LoopsRemove` | src/NLinkedTree.cpp:346-456 | collecting, erasing and relinking together are the functional removal |
| `TreeRuns.HandOutFollowsReadiness` | src/NLinkedTree.cpp:179-609 | in every run of add, next and remove: what was handed out followed by what is pending is the list in order of becoming ready, without the keys removed unserved; nothing twice, nothing skipped |
| `SchedulerSafety.StepIsSafe` | src/TaskManager.cpp:166-230 | every step of every thread keeps the scheduler invariant |
| `SchedulerSafety.AddIsSafe` | src/TransactionMgr.cpp:64-94 | adding a transaction with a fresh id under the lock keeps it |
| `SchedulerSafety.DispatchIsSafe` | src/TaskManager.cpp:166-215 | taking a processor and the next ready transaction keeps it |
| `SchedulerSafety.FinishIsSafe` | src/TaskManager.cpp:217-230 | giving the processor back keeps it |
| `SchedulerSafety.ReturnedIsSafe` | src/TransactionMgr.cpp:96-116 | removing the finished transaction keeps it |
| `SchedulerSafety.DispatchedAreIsolated` | src/TransactionMgr.cpp:64-116 | in every reachable state running transactions share no object, and each has the smallest id among the pending users of its objects |
| `SchedulerSafety.QuietMeansSerial` | src/TaskManager.cpp:166-230 | in every run, when no thread is left: the tree is empty, all processors are back, and the store is that of the transactions one by one in id order |
| `SchedulerSafety.ProcessorsAreConserved` | src/TaskManager.cpp:166-230 | in every reachable state each processor is in exactly one slot or held by exactly one task |
| `SchedulerSafety.ChildrenMirrorParents` | src/NLinkedTree.cpp:407-456 | in every reachable state of the scheduler the tree is consistent and children links mirror parent links, since it removes ready transactions only |
| `SchedulerSafety.SomeThreadCanMove` | src/TaskManager.cpp:166-230 | no deadlock: while threads exist one can move |
| `SchedulerProgress.MoveLowers` | src/TaskManager.cpp:166-230 | every step of a thread lowers a measure of the work left |
| `SchedulerProgress.RestIsReached` | src/TaskManager.cpp:166-230 | without new transactions every schedule is bounded, and one that cannot go on has served every transaction with the serial outcome |
| `SchedulerUse.ProcessorsAreUsed` | src/TaskManager.cpp:166-230 | in every reachable state in which no thread is about to look for work, the smaller of the waiting ready transactions and the idle processors is at most what single removals made ready beyond two |
| `SchedulerUse.NobodyWaits` | src/TaskManager.cpp:166-230 | hence, if no removal makes more than two transactions ready, nothing ready waits beside an idle processor |
| `SchedulerUse.OneLookPerCause` | src/TransactionMgr.cpp:64-116 | in every run that ends with no thread about to look there was exactly one look-up per ready addition, per ended task and per removal that makes others ready |
| `SchedulerIdle.BoundIsSharp` | src/TaskManager.cpp:166-230 | for every n a run with n processors ends with n - 2 of them idle and n - 2 ready transactions waiting, after one removal that made n ready |
| `SchedulerData.RunKeepsData` | src/Processor.cpp:618-635 | a step of a running transaction keeps every object at its serial value |
| `SchedulerData.RemoveKeepsData` | src/TransactionMgr.cpp:96-116 | the next user of an object finds the serial state before it |
| `BookModel.InsertedIs` | src/OrderBookImpl.cpp:132-145 | insertion keeps the price order, adds one entry and puts it behind its equals |
| `BookModel.WithoutIs` | src/OrderBookImpl.cpp:204-243 | removal keeps the price order and takes out exactly one entry |
| `BookModel.InsertThenRemove` | src/TrOperations.cpp:400-410 | removing what was just added restores the side if and only if the order is new to it or its entry is the last of its price |
| `BookModel.RemoveThenInsert` | src/TrOperations.cpp:418-428 | putting a removed entry back restores the side if and only if no other order of its price came after it |
| `OrderBookClass.OrderBook.Add` | src/OrderBookImpl.cpp:123-156 | the new state and the outcome; the entry stays when saving fails |
| `OrderBookClass.OrderBook.EraseFrom` | src/OrderBookImpl.cpp:209-224 | lower bound and equal-price scan find an entry if and only if it is there, and erase its first occurrence |
| `OrderBookClass.OrderBook.Remove` | src/OrderBookImpl.cpp:189-254 | the new state and the outcome, for every instrument and side |
| `OrderBookClass.OrderBook.Find` | src/OrderBookImpl.cpp:256-305 | the first accepted order before any stop, or which of the two exceptions |
| `OrderBookClass.FindIs` | src/OrderBookImpl.cpp:256-305 | for every list and functor: the first order that is accepted or stops the search decides it |
| `OrderBookClass.OrderBook.FindAll` | src/OrderBookImpl.cpp:307-356 | all accepted orders up to a stop, the stopping one included if it is accepted, in order, or which exception |
| `OrderBookClass.FindAllIs` | src/OrderBookImpl.cpp:307-356 | for every list and functor: the accepted orders among those up to and including the first that stops the search |
| `OrderBookClass.OrderBook.GetTop` | src/OrderBookImpl.cpp:358-389 | an order that no other order of its side beats on price, or which exception |
| `OrderBookClass.StopIsSound` | src/OrderBookImpl.cpp:265-276 | stopping early finds what a full scan finds if nothing behind a stop would be accepted |
| `Matching.EarlyStopIsSound` | src/OrderMatcher.cpp:66-113 | that holds for matching on a sorted side without market orders whose keys are the stored prices |
| `Matching.SearchIs` | src/OrderMatcher.cpp:66-113 | for every list and order, market orders included: the first entry with a known order and something left decides, and is the contra if either is a market order or its price is in reach |
| `Matching.BestPriceFirst` | src/OrderMatcher.cpp:66-113 | on a sorted side of limit orders that is the best price on offer, and there is a contra if any order with something left is in reach |
| `Matching.RoundIs` | src/OrderMatcher.cpp:136-206 | a round for every order: a trade of the smaller leaves at the contra's price, again if more is left, an exception for two orders without price, and without a contra a cancellation if and only if it is a market order |
| `OrderRuns.HandleBookOps` | src/OrderStateMachineImpl.cpp:134-593 | which book operations an event queues, from the order and the event alone: an order enters only together with an attempt to match it, and when it leaves |
| `OrderRuns.MembershipIffSaved` | src/OrderStateMachineImpl.cpp:424-593 | until cancelled or replaced: in the book exactly once if and only if New or PartFill, with the status of the state; one event keeps this if and only if no entry of it was refused by the saver |
| `OrderRuns.BookMembership` | src/StateMachine.h:105-248 | in every admissible run without a refused entry, until cancelled or replaced: that, and nothing left if and only if Filled |
| `OrderRuns.CancelledStaysOutIff` | src/StateMachine.h:225-246 | a cancelled or replaced order out of the book stays out if and only if the event asks for no removal and for no entry that is saved |
| `OrderRuns.CancelledOrderReturns` | src/StateMachine.h:225-246 | such an event is reachable: a correction and an expiry put a cancelled order back into the book |
| `OrderRuns.CancelledOrderTrades` | src/StateMachine.h:208-246 | a suspended order that is cancelled and then continued is back in the book, cancelled and tradable |
| `OrderRuns.ConsistentIff` | src/OrderStateMachineImpl.cpp:106-593 | an order stays out of the book, or in it once and tradable, if and only if the event is not one of those that leave an untradable entry, whatever the history and cancelled or not |
| `OrderRuns.FinalStatesOverRuns` | src/StateMachine.h:183-246 | in every run Rejected, Expired and CnclReplaced are never left, only a correction leaves Filled, and Filled means nothing left |
| `OrderRuns.HandleKeeps` | src/StateMachine.h:105-248 | no event changes the terms of an order or breaks those rules |
| `OrderRuns.ConsistentEntries` | src/OrderStateMachineImpl.cpp:464-593 | then only orders out of the book enter it: those that are matched, and those that slip in through a removal that finds nothing |
| `OrderLaws.HandleIs` | src/StateMachine.h:105-248 | for every order and event, from the order and the event alone: the whole order afterwards, all operations that are queued in their order, and the execution that is recorded |
| `OrderLaws.PauseKeepsOrder` | src/StateMachine.h:149-220 | any sequence of finished and suspended keeps an order in the market as it was but for its state; the event that ends the last of them brings it back, New or PartFill by what was executed, with its entry if saved |
| `OrderLaws.WrongResume` | src/StateMachine.h:195-216 | a new day does not end a suspension, nor does continuing end the day |
| `OrderLaws.RequestDenied` | src/StateMachine.h:225-242 | a request holds off all others until it is decided, and a denial leaves the order as it was |
| `OrderLaws.RequestGranted` | src/StateMachine.h:225-242 | granting it takes the order out of the book as cancelled or replaced, by what was asked first |
| `OrderLaws.CorrectionSets` | src/OrderStateMachineImpl.cpp:424-462 | a correction sets leaves and cum to its own if the order has executions or is cancelled or replaced, and changes nothing otherwise |
| `OrderLaws.CorrectionUndoesTrade` | src/OrderStateMachineImpl.cpp:360-448 | correcting a trade back gives the order and its entry as before, also after the last fill |
| `OrderWorld.EventProcessor.SetPersistance` | src/StateMachine.cpp:58-67 | the machine takes over the saved zones of the order |
| `OrderWorld.EventProcessor.Process` | src/Processor.cpp:586-600 | whatever the shared machine held before does not matter, with either answer of the saver |
| `OrderWorld.StepView` | src/Processor.cpp:586-616 | an event moves its own order as a private machine would and is invisible to all others |
| `OrderWorld.Interleaving` | src/Processor.cpp:48-66 | in every interleaving of events each order goes through the states of its own private machine |
| `OrderWorld.HandleOneBookOp` | src/OrderStateMachineImpl.cpp:106-593 | at most one book operation is queued per event |
| `Sweeping.StepIsFill` | src/OrderStateMachineImpl.cpp:360-409 | a trade on a resting order moves quantity from leaves to cum, sets the state, and removes it from the book with its last unit |
| `Sweeping.FillsAddUp` | src/DataModelDef.cpp:225-236 | two fills make one fill of their sum |
| `Sweeping.TradeTopIs` | src/OrderMatcher.cpp:164-206 | one trade with the front of the opposite side: both orders, both sides, both execution records |
| `Sweeping.TradeRecords` | src/OrderStateMachineImpl.cpp:360-409 | a trade is recorded and counted if and only if the order rests and has enough left; otherwise nothing changes |
| `Engine.MatchIsTop` | src/OrderMatcher.cpp:136-206 | one round of matching appends one execution against the front, and another round if something is left |
| `Engine.ExecutionRepeatsIff` | src/ExecutionDeferedEvent.cpp:54-86 | an execution with one contra changes nothing if and only if the contra does not take the trade, in any state |
| `Engine.OneRound` | src/Processor.cpp:547-584 | a round trades with the front, or changes nothing and appends the same events again while the order has more left than the front |
| `Engine.ExecutionIsTrade` | src/ExecutionDeferedEvent.cpp:54-86 | executing that event is that trade, at the resting price for both, or nothing if the front does not trade |
| `Engine.Processor.Match` | src/OrderMatcher.cpp:136-206 | which events are appended and when it throws |
| `Engine.Processor.Execute` | src/ExecutionDeferedEvent.cpp:54-86 | the loop over trades tallies the contras that traded, then fills the base order |
| `Engine.Processor.OnEvent` | src/Processor.cpp:534-545 | the effect of each kind of deferred event |
| `Engine.Processor.DrainRound` | src/Processor.cpp:550-582 | the inner loop, for all event lists: the events in order and the new ones collected, or after an exception the rest and the new ones dropped |
| `Engine.PricelessThrows` | src/OrderMatcher.cpp:180-189 | two orders without a price: the exception ends the draining and nothing waits |
| `Engine.DrainEndsIff` | src/Processor.cpp:547-584 | draining the events of an order ends if and only if it is not stuck: it never has more left than the orders in reach that trade and the first one behind them that does not |
| `Engine.ExpiredContraStalls` | src/Processor.cpp:547-584 | it can be stuck: an expired order in the book stalls every larger order that reaches it |
| `Engine.StuckIsReached` | src/OrderStateMachineImpl.cpp:106-215 | three events of two received orders lead there: the smaller one is received without being saved and expires, the larger one is received |
| `Engine.Processor.ProcessDeferredEvents` | src/Processor.cpp:547-584 | for an order that is not stuck the nested loops terminate and come to the greedy sweep |
| `SweepLaw.SweepIs` | src/OrderMatcher.cpp:136-206 | the sweep in closed form: every order, both sides, for all books, also those with orders that do not trade |
| `SweepLaw.AllocIs` | src/OrderMatcher.cpp:180-206 | the i-th order in reach gets what those before it left over, within its own leaves |
| `SweepLaw.AllocTotal` | src/OrderMatcher.cpp:180-206 | in total the smaller of the incoming quantity and the quantity in reach |
| `SweepLaw.ReachStops` | src/OrderMatcher.cpp:89-110 | the orders in reach are the leading ones with an acceptable price that take trades |
| `SweepLaw.ReachIs` | src/OrderMatcher.cpp:89-110 | where all orders take trades, these are all those with an acceptable price |
| `SweepLaw.PriceTimePriority` | src/OrderMatcher.cpp:136-206 | an order trades only when every better or earlier one is used up |
| `MarketOrders.StepIsUnbooked` | src/OrderStateMachineImpl.cpp:360-409 | a trade on an order without an entry moves quantity; used up, it stays in its state, since its removal from the book throws |
| `MarketOrders.MarketDrains` | src/Processor.cpp:547-584 | draining the events of a market order opposite to resting orders always ends |
| `MarketOrders.MarketIs` | src/OrderMatcher.cpp:136-206 | its outcome in closed form: the resting orders trade in their order, in all as much as both sides have, the rest of the market order is cancelled, and nobody else is touched |
| `Market.StepKeepsWorldIff` | src/OrderStateMachineImpl.cpp:106-593 | an event of a limit order keeps every entry tradable, once, at its own price and side, if and only if it is acceptable: it leaves no untradable entry of its order |
| `Market.PerformTransaction` | src/TransactionScope.cpp:261-302 | the queued operations in order; if the saver refuses the order, its entry and the match events are taken back; a removal that finds nothing puts an entry in |
| `Market.Receive` | src/Processor.cpp:618-635 | machine, queued operations (match before add) and deferred events together are one settled event |
| `Market.SweepUncrosses` | src/OrderMatcher.cpp:66-206 | a finished sweep leaves no cross |
| `Market.SettleKeepsMarketIff` | src/Processor.cpp:618-635 | after every acceptable event and its matching the best bid is below the best ask if and only if no order that reaches somebody slipped into the book unmatched |
| `Market.SlipCrosses` | src/TrOperations.cpp:418-428 | that can happen: cancelling an order whose entry was refused puts it into the book, across the best ask |
| `Market.EntriesStayTradable` | src/OrderStateMachineImpl.cpp:106-593 | over whole runs, also with cancelled orders that come back: every order in the book has something left and rests once at its own price and side |
| `Market.BookStaysUncrossedIff` | src/OrderStateMachineImpl.cpp:134-142 | over whole runs: uncrossed after every event if and only if no order slips in where it reaches somebody |
| `Conservation.HandleKeepsWhole` | src/DataModelDef.cpp:225-236 | no event but a correction that the order takes changes leaves plus cum (in 32 bits, and exactly where the sum fits); after such a correction they add up to what it says |
| `Conservation.RunKeepsWhole` | src/DataModelDef.cpp:225-236 | in every run, corrections included: leaves plus cum is what the last correction taken says, or what it was |
| `Conservation.CompleteIff` | src/OrderStateMachineImpl.cpp:424-462 | leaves plus cum stays the ordered quantity if and only if the event is no correction that the order takes with another sum |
| `Conservation.RunKeepsComplete` | src/OrderStateMachineImpl.cpp:424-462 | in every run whose corrections have that sum it stays so throughout |
| `Conservation.MarketStaysBalanced` | src/ExecutionDeferedEvent.cpp:54-86 | in every run of acceptable events whose trades come from matching, crossed or not, bought equals sold in quantity and money |
| `Conservation.ContrasRecorded` | src/ExecutionDeferedEvent.cpp:64-79 | the trades counted as applied are exactly those the contra orders recorded |
| `Conservation.TallyIffFits` | src/ExecutionDeferedEvent.cpp:60-79 | the tallied quantity is that of the applied trades if and only if it is below 2^32 |
| `Conservation.ExecutionCharges` | src/ExecutionDeferedEvent.cpp:80-86 | for all trades: tallied quantity times base price is the money of the applied trades, charged if and only if something is tallied and the base order takes the trade |
| `Conservation.TallyWraps` | src/ExecutionDeferedEvent.cpp:60-86 | two contras that trade 2^31 each: both record their trades and the base order is charged nothing |
| `Rollback.Context.ExecuteTransaction` | src/TransactionScope.cpp:261-302 | the two loops: all operations, or those before the failure and then the undoing from the failed one down, up to the first undo that throws |
| `Commit.CommitsIff` | src/TransactionScope.cpp:268-277 | a transaction goes through if and only if every operation is feasible, told from the operations and the book before; then entries and deferred events are those before plus what the operations added and took away |
| `Rollback.RollbackLeaves` | src/TransactionScope.cpp:285-301 | every failure: the rollback ends in the state before the last removal that cannot be undone, or in that of the failure itself, perhaps with one extra entry; the deferred events exactly |
| `Rollback.RestoresIff` | src/TransactionScope.cpp:285-301 | over all failures, contents and deferred events are restored if and only if the operations that stay done cancel out, entry by entry |
| `Rollback.UndoOneExactly` | src/TrOperations.cpp:400-428 | undoing an operation restores the state with its time order if and only if the entry concerned is new, or the last of its price |
| `Rollback.CleanFailureRestoresExactly` | src/TrOperations.cpp:400-428 | so does a rollback of such operations |
| `RollbackOrder.RestoresExactlyIff` | src/TransactionScope.cpp:285-301 | over the whole list: the rollback ends exactly, time order included, in the state before the last removal that cannot be undone if and only if every removal since then found nobody behind its order but orders that the transaction added |
| `Rollback.FailedRemoval` | src/TrOperations.cpp:418-428 | a removal that found nothing is undone into an extra entry, whatever the saver says |
| `Rollback.RestoresIffClean` | src/TransactionScope.cpp:285-301 | if the savers take every order back, the state is restored if and only if the failed operation is no removal |
| `Rollback.HomelessFailure` | src/TransactionScope.cpp:285-301 | an add or removal without a place in the book stops the rollback before anything is undone |
| `LockFreeCache.EachObjectOnce` | src/InterLockCache.h:101-147 | in every interleaving, with objects changing hands between threads, each object is in exactly one node, or with one thread or client, or deleted |
| `LockFreeCache.StepKeepsInv` | src/InterLockCache.h:101-147 | every atomic step keeps that |
| `LockFreeCache.PointersGoForward` | src/InterLockCache.h:110-138 | each pointer moves only to the next node, and only by the thread that emptied or filled the node it is at |
| `RingCache.InterLockCache.constructor` | src/InterLockCache.h:56-76 | filled with cacheSize + 1 objects, which is its capacity |
| `RingCache.InterLockCache.PopFront` | src/InterLockCache.h:101-124 | alone: the front of the queue, or a new object when empty |
| `RingCache.InterLockCache.PushBack` | src/InterLockCache.h:126-147 | alone: appended, or deleted when full |
| `SoloCache.SoloPop` | src/InterLockCache.h:101-124 | a thread moving alone through the atomic steps pops the front of that queue, or makes an object |
| `SoloCache.SoloPush` | src/InterLockCache.h:126-147 | and appends to it, or deletes the object, whatever number of spurious failures come first |
| `CacheJam.SoloPushCompletesIff` | src/InterLockCache.h:126-147 | from any state, a push that moves alone completes if and only if the ring is full or the node at nextNull_ is empty |
| `CacheJam.JamForever` | src/InterLockCache.h:101-147 | with both pointers at an occupied node the ring never changes again and no push ever completes, in any interleaving |
| `CacheJam.CanJamIff` | src/InterLockCache.h:101-147 | some run of some cache jams if and only if two pops or two pushes may be under way at the same time: one of each at a time never jams, and neither bound can be dropped |
| `CacheJam.JamsWithOnePop` | src/InterLockCache.h:126-147 | the run with one pop at a time: a push is overtaken by a turn of the ring |
| `CacheJam.JamsWithOnePush` | src/InterLockCache.h:101-124 | the run with one push at a time: a pop is overtaken by a turn of the ring and skips an occupied node |
| `CacheJam.OnePushCompletes` | src/InterLockCache.h:126-147 | with one of each at a time a push never meets an occupied node |
| `ScopePool.StepKeepsInv` | src/TransactionScopePool.h:149-209 | every atomic step keeps one owner per used slot and every scope in one place |
| `ScopePool.WrappersAreIsolated` | src/TransactionScopePool.h:253-337 | in every interleaving wrappers have different scopes, none of them handed over or deleted |
| `ScopePool.AllGivenBack` | src/TransactionScopePool.h:269-328 | when all wrappers are gone every slot is free and no scope is lost or given back twice |
| `PoolAcquire.ScopePoolAlone.Acquire` | src/TransactionScopePool.h:149-185 | takes the first free slot it looks at and looks no further; the heap if and only if none is free; counter and misses |
| `PoolAcquire.CoversIff` | src/TransactionScopePool.h:153-179 | all slots are looked at if and only if the 64-bit counter does not wrap meanwhile or the pool size divides 2^64 |
| `PoolAcquire.HeapIffExhausted` | src/TransactionScopePool.h:153-184 | then the heap is used if and only if every slot is in use |
| `PoolAcquire.HeapThoughFree` | src/TransactionScopePool.h:153-184 | otherwise some pool has a free slot and still goes to the heap |
| `PoolAcquire.SoloAcquire` | src/TransactionScopePool.h:149-185 | a wrapper that moves alone through the atomic steps acquires the same slot or heap scope |
| `TransactionScopeClass.TransactionScope.ArenaAllocate` | src/TransactionScope.cpp:89-100 | the first aligned place behind the offset that fits, and nothing if and only if none fits |
| `TransactionScopeClass.PlacedFirst` | src/TransactionScope.cpp:89-100 | a request is granted wherever it would fit, at the least such place |
| `TransactionScopeClass.TransactionScope.NewOperation` | src/TransactionScope.cpp:27-37 | arena or heap, and the address test later tells which |
| `TransactionScopeClass.ArenaTestIff` | src/TransactionScope.cpp:102-107 | the address test recognises what the arena gave out, except a request for nothing in a full arena |
| `TransactionScopeClass.AllocationsAreApart` | src/TransactionScope.cpp:89-100 | between resets all allocations are aligned, in bounds and pairwise disjoint |
| `TransactionScopeClass.TransactionScope.DestroyOperation` | src/TransactionScope.cpp:109-121 | frees an operation if and only if its address is outside the arena |
| `TransactionScopeClass.TransactionScope.RemoveLastOperation` | src/TransactionScope.cpp:152-167 | drops the operation and the boundaries not below the new size |
| `TransactionScopeClass.TransactionScope.StartNewStage` | src/TransactionScope.cpp:169-175 | records the position and returns its number |
| `TransactionScopeClass.TransactionScope.RemoveStageFrom` | src/TransactionScope.cpp:177-198 | cuts operations and boundaries back, or fails without such a stage |
| `TransactionScopeClass.TransactionScope.ResetScope` | src/TransactionScope.cpp:67-87 | empties the scope and frees its heap operations |
| `TransactionScopeClass.DoKeepsBounds` | src/TransactionScope.cpp:147-198 | boundaries stay sorted and bounded |
| `TransactionScopeClass.RemoveStageRestores` | src/TransactionScope.cpp:169-198 | removing a stage restores operations and boundaries after any activity inside it |
| `TransactionScopeClass.StageSurvivesIff` | src/TransactionScope.cpp:152-167 | a stage survives the removal of an operation if and only if more than one was added after it |
| `TransactionScopeClass.ResetFreesAllOnce` | src/TransactionScope.cpp:67-121 | up to the reset every added operation outside the arena is freed exactly once, and nothing else |
| `TransactionScopeClass.ResetFreesOverflow` | src/TransactionScope.cpp:27-121 | these are exactly the operations that did not fit the arena when they were allocated |
| `TransactionScopeClass.GetRelatedObjects` | src/TransactionScope.cpp:205-259 | lists every named id once, under the kind it is first named with; fails if and only if there are more than ten |
| `TransactionScopeClass.KindsDeclaredIff` | src/TransactionScope.cpp:217-251 | every object is declared under every kind it is named with if and only if no id is named with both kinds |
| `LogFormat.ParseFrame` | src/FileStorage.cpp:80-202 | reading where a record was written gives it back |
| `LogFormat.ParseIff` | src/FileStorage.cpp:80-161 | a record is read at a position if and only if its frame is there, every size, flag, delimiter and tail included |
| `LogFormat.VersionSize` | src/FileStorage.cpp:253-256 | the version record carries its own size, low byte first |
| `LogFormat.FlipInFile` | src/FileStorage.cpp:229-249 | the one-byte flip gives the file with that record switched off and all others as they were |
| `FileLog.DisabledChain` | src/FileStorage.cpp:229-249 | it leaves its own chain and no other chain or offset changes |
| `FileLog.FileStorage.SaveNew` | src/FileStorage.cpp:364-384 | new state, bytes and outcome |
| `FileLog.FileStorage.UpdateRecord` | src/FileStorage.cpp:386-412 | new state, bytes and version |
| `FileLog.FileStorage.ReplaceRecord` | src/FileStorage.cpp:414-446 | new state, bytes and version, or failure without change |
| `FileLog.FileStorage.EraseOne` | src/FileStorage.cpp:448-467 | new state and bytes |
| `FileLog.FileStorage.EraseAll` | src/FileStorage.cpp:469-483 | new state and bytes, for all versions |
| `FileLog.FileStorage.SaveRecord` | src/FileStorage.cpp:163-202 | the file grows by the frame of the record |
| `FileLog.FileStorage.DisableRecord` | src/FileStorage.cpp:229-249 | one byte changes and the file is that of the shortened chain |
| `FileLog.DoKeeps` | src/FileStorage.cpp:364-483 | every command keeps the index right and changes the live versions of its own id only, as it should |
| `FileLog.VersionsIncreaseIff` | src/FileStorage.cpp:402-443 | versions increase along a chain if and only if the 32-bit counter does not wrap |
| `FileLog.VersionsIncreaseOverRuns` | src/FileStorage.cpp:402-443 | so they do for every id over every run without a wrap, across sessions |
| `FileLog.VersionsCountUp` | src/FileStorage.cpp:364-412 | a new id that is saved or updated and then updated n times has its versions live, numbered from 0 |
| `FileLog.Load` | src/FileStorage.cpp:271-336 | the outcome for any bytes; on a written file it reports the live records in order and rebuilds all chains that are not empty |
| `LogDamage.DamagedFileReplays` | src/FileStorage.cpp:204-336 | records between damaged blocks without a mark are all found, where they are, and nothing else is |
| `LogDamage.AnyTail` | src/FileStorage.cpp:271-336 | whatever follows the written records, they are all reported first |
| `LogDamage.TornWrite` | src/FileStorage.cpp:163-336 | an append cut short at any byte loses that record only, unless its bytes hold another mark |
| `LogDamage.RefusedRecord` | src/FileStorage.cpp:330-335 | an observer that throws on a record does not change what is read after it |
| `FileLog.DoIsApplied` | src/FileStorage.cpp:364-483 | what an id holds after a command is the meaning of the command applied to what it held, and other ids hold the same |
| `FileLog.FileStorage.Open` | src/FileStorage.cpp:271-336 | loading an existing file gives a valid store with the rebuilt index |
| `FileLog.ReplayAfterAnyRun` | src/FileStorage.cpp:305-336 | after any run of commands and reopenings, what loading reports about an id is the fold of the meanings of its commands, and the index has the ids for which that is something |
| `FileLog.RunThenLoad` | src/FileStorage.cpp:271-483 | the same of the bytes that the methods of the storage leave and the loop that loads them |
| `Codec.ReadBack` | src/StringTCodec.cpp:32-64 | each kind of field reads back |
| `Codec.ReadIff` | src/StringTCodec.cpp:32-64 | a field is read if and only if its bytes are there |
| `Codec.DecodeEncoded` | src/InstrumentCodec.cpp:38-74 | a list of fields with delimiters decodes to itself, whatever surrounds it |
| `Codec.DecodeIff` | src/InstrumentCodec.cpp:54-74 | decoding gives these fields if and only if the bytes are their layout, delimiters included |
| `OrderCodec.AppendId` | src/DataModelDef.cpp:132-143 | date, colon and id, appended, are the next field of the layout |
| `OrderCodec.EncodeToString` | src/OrderCodec.cpp:31-159 | the 32 fields written out: 272 bytes behind the old ones, which decode to the order where they stand |
| `OrderCodec.WriteId` | src/DataModelDef.cpp:145-157 | date, colon and id, written through the pointer, are the next field of the layout |
| `OrderCodec.EncodeToArray` | src/OrderCodec.cpp:161-318 | the 32 fields written out: 272 bytes that decode to the order where they stand, and no other byte changes |
| `OrderCodec.EncodeBothWays` | src/OrderCodec.cpp:31-318 | the two hand-written sequences produce the same bytes, each being the layout |
| `OrderCodec.DecodesBack` | src/OrderCodec.cpp:320-676 | the decoder gives the order back, without its execution instructions, whatever surrounds it |
| `Records.OrderBack` | src/OrderCodec.cpp:320-676 | the decoded fields make the same order, without its execution instructions |
| `Records.SaveThenLoad` | src/StorageRecordDispatcher.cpp:62-264 | loading what save wrote yields the record, for all six kinds |
| `Records.LoadedIff` | src/StorageRecordDispatcher.cpp:62-131 | a record is restored if and only if the body starts with what saving it writes; execution records are skipped and all else is refused |
| `Records.ThroughTheFile` | src/StorageRecordDispatcher.cpp:62-264 | through the file: whatever run leaves the record as a version of its id, loading restores it there |
| `Records.SaveAllThenLoad` | src/StorageRecordDispatcher.cpp:62-264 | saving any records to a new file and loading it restores, for every id, exactly the first record saved under it |

## Left out

- Frontend, sessions, JSON, metrics, LMDB and PostgreSQL storage, CPU affinity, huge pages: I/O and thin wrappers.
- Weak memory orderings and backoff: atomics are sequentially consistent steps.
- getParents, getChildren, current, dumpTree of the tree and getSnapshot of the book: read-only views that would add easy members.
- The queue side of the task manager (onNewEvent, finishEvent): its processor stack is handled as the modelled one; an idle worker does not mean an empty queue there.
- Processing that throws inside a task, and an observer that is replaced while threads run.
- Market orders in book membership and the runs of a market: they are never in the book; the operations they queue, their search and their whole sweep opposite to resting orders are modelled.
- The queued event of a replacement, which carries the replacement's id, and external orders, whose operations work on the unsaved copy.
- Contra orders that the deferred events of a transaction touch outside its declared objects: matching is modelled with one event settled at a time.
- Execution reports and queue pushes: they have no undo and no effect on the modelled state.
- OrderMachine.Act: restoring a market order at a new day, which the source excludes by an assertion, queues no book entry.
- Engine.Processor.ProcessDeferredEvents: excludes the orders for which the loop does not end, which `Engine.DrainEndsIff` names; it is stated for the events of one order in the market.
- Market.BookStaysUncrossedIff: excludes events after which an entry of their order cannot be traded with; `Market.StepKeepsWorldIff` shows that it excludes no others.
- RollbackOrder.RestoresExactlyIff: is stated for books that hold every order at most once and transactions that add new orders; with second entries of one order two misplacements can cancel out.
- LogDamage.DamagedFileReplays: damaged blocks that hold the mark of a record are left out, since their bytes may happen to be one.
- Records.LoadedIff: a body that ends where a delimiter is due counts as malformed; the source looks at the byte behind it.
- FileLog.FileStorage.UpdateRecord: excludes, as the source asserts, ids whose versions were all erased one by one; FileLog.RunThenLoad does so for its updates.
- Input and output failures, and files near the limit of the position type.
- RawDataEntry ordering, field filters and enumeration names: easy.
