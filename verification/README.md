# A model of the trading server's hard parts

This project models the limit order book engine of the repository and the machinery under it: the
multi-producer queue, the coroutine event loop, the JSON printer and parser, the object pool with the
reference counting above it, and two small codecs. Each part is proved against something simpler than
itself, over every input, every run or every reachable state.

`dafny verify dfyconfig.toml` checks the whole project.

## The parts

**Order book** (`MachineInts`, `PriorityBook`, `OrderQueue`, `BookRows`, `BookLevels`, `BookSides`,
`OrderBookEngine`, `BookAlgebra`, `BookRuns`, `BookSession`, `BookTheorems`). The engine keeps two arrays of price levels, each a doubly linked queue with a cached
total, and a hash index from order id to side, level, list iterator and price. The simple form is one flat
list of resting orders in priority order. `OrderBookEngine.OrderBook` updates heap nodes in place, and every
message takes it exactly where the flat list goes; everything else is proved of the flat list.

- Every level's queue is the flat list filtered by side and level, and its total is the sum of its sizes
  modulo 2^64. This holds on *every* run, a duplicate Add included: the older order of that id becomes an
  orphan that no later message but a reset can reach.
- The index leads from every live id to the node that holds it, whatever is erased or spliced elsewhere.
- The list is always in the order of stamps that are renewed only by an Add, a new price or a size increase;
  the size ahead of an order never grows while it keeps its stamp.
- An order with the letter 'B' is queued among the bids and one with 'A' among the asks, in the level that takes
  its price, behind all others.
- Queries are the aggregate of the flat list. Each contract says which levels are shown, in which order, and
  what stands in each place: price, summed size and number of orders. On grid prices a feed is shown as a row for
  exactly the prices at which orders rest, with their summed size.

The code is followed where test names say otherwise: `T` and `N` reduce an order, and `F` erases it whatever
its size (`src/orderbook/orderbook.h:120-122`); the contrary assertions are commented out at
`test_cases/src/test_orderbook/test_orderbook_common.cpp:61-62` and `:81-83`.

**Queue** (`MpscQueue`, `MpscSafety`, `MpscBound`, `MpscRing`). Every load, compare-and-swap, store and
counter update of push and pop is one step of an interleaving of any number of producers and one consumer.
With clients that never have more items under way than the ring has slots, items come out in ticket order
and none is lost or overwritten. Without that discipline the counter is still exact in every state, but
the backlog is bounded by the capacity *exactly* when there is at most one producer: push refuses only when the
counter is *equal* to the capacity (`core/queue/mpsc_queue.h:93`), two producers can step over that value
together, and after that no bound of any kind holds. `MpscRing.Ring` is the object with its fields; called
one at a time it is a bounded queue, and each whole call is a run of the steps.

**Event loop** (`EventLoop`, `EventLoopSafety`, `EventLoopTheorems`, `EventLoopEntries`, `EventLoopWitness`,
`EventBaseObject`). Tasks, futures, pool entries and the ready queue; one resume runs without interruption and
its effects may come in any order.

- For programs that start and await only fresh tasks the ready queue never holds more than the pool, and each
  task is released exactly once. That condition is exact, step by step.
- In such a run a task is never woken exactly if it has awaited a future whose value was set, or was replaced as
  the waiter of one that was not; a run loses nobody exactly if no such await occurs. A lost task is never
  resumed by any respectful continuation, and a run from the start reaches one. Only a second
  registration, by another task that awaits it, still reaches it.
- Over every run, respectful or not, a task holds one entry for each registration, less the one that it gives
  back: the entry that resumed it last, or its latest. The others point to a destroyed frame and are never free
  again, so the pool is whole in the end exactly if every task was registered once.
- `EventBaseObject.EventBase` is the object, with a real `CachePool.Pool` and a real `MpscRing.Ring` of one
  capacity: every acquire finds an entry, every release is of an entry in use, and no push is refused.

**JSON** (`JsonText`, `JsonGrammar`, `JsonParse`, `JsonReading`, `JsonRoundTrip`, `JsonPrefix`). The printer
escapes nothing; the parser is a set of mutually recursive methods over a shared cursor and a validity flag.
Methods with their loops are proved equal to specification functions on *arbitrary* text. What these read is
stated by a grammar of its own, `JsonGrammar.Spells`: the tokens of a tree in order, with any blanks or other
characters that mean nothing between them.

- Every spelling of a clean container is read to its last bracket, valid, whatever stands behind it; the result
  is the tree with each empty container replaced by null. Only an empty container must have nothing between its
  brackets: `[ ]` is read as an array of one null, and `{ }` is refused.
- A tree without floating-point numbers survives printing and parsing exactly when its root is a container, no
  string or key has a quote, no key has a NUL, and no key is there twice. What is printed is the one shortest
  spelling.
- What the parser accepts, it accepts with the same value whatever follows, so no spelled container is
  accepted that was cut off before its last bracket.

**Pool and reference counts** (`CachePool`, `PoolSteps`, `PoolOwners`, `RefCount`, `RefCountTheorems`,
`RefCountReach`, `JsonHandles`, `ShareString`). The pool is a ring of free objects, handed out in the order
they came back. Interleaved step by step, every object has a single owner *exactly* with one acquiring and at
most one releasing thread, unless the pool has only one object. Above it, the counts of JSON objects are exact
over every run, a release leaves something behind exactly when unreachable objects hold one another in a
circle, and an assignment reads freed memory exactly when its source is led to only through the target.
Shared strings are counted the same way, and no operation on one of them changes what another shows.

**Codecs** (`Base64`, `SplitString`). Base64 with the alphabet and padding of section 4 of RFC 4648, and
cutting a string at a delimiter.

## Conventions

- Integers of the original have their width: `uint32`, `uint64` and `int64` wrap, convert and divide as there.
- An exception of the original is a `None`, `Failed` or `false` result, or a `Broken` outcome where the
  original reads past its text. An exhausted pool ends a program, so it disables the step.
- Stamps, ranks, tickets, `popped`, `lost`, `releases` and the like record history for the theorems. No
  transition looks at them, but that a resume which would read a destroyed frame is disabled.
- A field that a source loop reads or writes through a fixed buffer is an array here; a `std::vector` or
  `std::unordered_map` is a `seq` or `map` field.

## Model

| member | source | states |
|---|---|---|
| MachineInts.Add64Follows | src/orderbook/orderbook.h:139 | Unsigned 64-bit addition to a wrapped total keeps it congruent to the true sum, so the sum of a level modulo 2^64 is never lost by an addition. |
| MachineInts.Sub64Follows | src/orderbook/orderbook.h:157 | The same for a subtraction of what is part of the true sum: no underflow of the true volume. |
| OrderBookEngine.OrderBook.Apply | src/orderbook/orderbook.h:107-127 | Refinement: from a valid engine each accepted message ends in a valid engine that stands for the flat list after that message. A queued order is last of all, among the bids for 'B' and the asks for 'A', in the level that takes its price; with any other letter only a reset does anything. |
| OrderBookEngine.OrderBook.Replay | src/orderbook/orderbook_controller.cpp:27-31 | The refinement over whole runs: a valid engine fed any accepted sequence of messages ends valid, standing for the flat list after that sequence. |
| OrderBookEngine.OrderBook.Add | src/orderbook/orderbook.h:133-142 | A node at the back of its level's queue, its size on the cached total, the id pointing to it; an id that was already there loses its old node, which stays queued as an orphan. |
| OrderBookEngine.OrderBook.Cancel | src/orderbook/orderbook.h:144-166 | The flat list after a cancel: an unknown id changes nothing, an amount that covers the order erases it, a smaller one keeps its place. |
| OrderBookEngine.OrderBook.ModifyOrder | src/orderbook/orderbook.h:168-228 | The flat list after a modify, all five paths, with the stored side at the same price and the message's side at a new one. |
| OrderBookEngine.OrderBook.Requeue | src/orderbook/orderbook.h:192-203 | A new price takes the node out of its queue and puts the order behind all others of the new level. |
| OrderBookEngine.OrderBook.GrowOrder | src/orderbook/orderbook.h:205-217 | A larger size at the same price moves the node to the back of its own queue by a splice; the iterator stays good. |
| OrderBookEngine.OrderBook.ShrinkOrder | src/orderbook/orderbook.h:161-165 | A partial reduction changes one size and one total, and nobody's place. |
| OrderBookEngine.OrderBook.EraseOrder | src/orderbook/orderbook.h:155-160 | An erased order leaves its queue, its total and the index; every other index entry still names its own node. |
| OrderBookEngine.OrderBook.HandleTrade | src/orderbook/orderbook.h:230-248 | A trade reduces like a cancel. |
| OrderBookEngine.OrderBook.HandleNonPrinted | src/orderbook/orderbook.h:263-266 | A non-printed trade does what a trade does. |
| OrderBookEngine.OrderBook.HandleFullFill | src/orderbook/orderbook.h:250-261 | A fill erases the order whatever the message's size. |
| OrderBookEngine.OrderBook.Clear | src/orderbook/orderbook.h:535-540 | Every level empty and every id forgotten. |
| OrderBookEngine.OrderBook.constructor | src/orderbook/orderbook.h:77-87 | A valid engine with an empty book on the given grid. |
| OrderBookEngine.OrderBook.LevelIsQueue | src/orderbook/orderbook.h:26-32 | In every valid engine the linked nodes of a level hold, first to last, the flat list filtered by that side and level, and the total is their sum modulo 2^64. |
| OrderBookEngine.OrderBook.IndexNamesNodes | src/orderbook/orderbook.h:64-71 | Every index entry names a node with its own id, among the linked nodes of the level it names, at its price; distinct ids name distinct nodes; without orphans every queued node is named. |
| OrderBookEngine.OrderBook.RunIndexesEveryNode | src/orderbook/orderbook.h:141 | After a run from the empty book without an Add of a resting id, index and queued nodes name each other one to one. |
| OrderBookEngine.IndexedRemove | src/orderbook/orderbook.h:158-159 | Erasing one order keeps the index exact for all the others. |
| OrderBookEngine.IndexedMove | src/orderbook/orderbook.h:212-215 | A splice keeps the index exact. |
| OrderBookEngine.OrderBook.BestBid | src/orderbook/orderbook.h:272-283 | The price of the highest level at which bids rest, with its volume modulo 2^64; nothing when there is none. |
| OrderBookEngine.OrderBook.BestAsk | src/orderbook/orderbook.h:285-296 | The price of the lowest level at which asks rest, with its volume modulo 2^64; nothing when there is none. |
| OrderBookEngine.OrderBook.GetDepth | src/orderbook/orderbook.h:307-342 | The best occupied levels of each side, as many as asked for or as there are, each with its grid price and its volume modulo 2^64. On grid prices: each row is a price with orders and their summed size, and a price that is missing is worse than all rows, which are as many as asked for. Nothing on a negative depth. |
| OrderBookEngine.OrderBook.BuildSnapshot | src/orderbook/orderbook.h:348-386 | One row for each occupied level, best first, with its grid price and its volume, exact below 2^63. On grid prices a row is there exactly if orders rest at its price and its size is their summed size. |
| OrderBookEngine.OrderBook.BuildBidAskPairs | src/orderbook/orderbook.h:435-514 | As many pairs as the longer side has levels with a positive total. The i-th pair holds grid price, volume and number of orders of the i-th best such level of each side, exact below 2^63, and three zeros where a side has no more. |
| OrderQueue.Level.PushBack | src/orderbook/orderbook.h:137-138 | A new last node; the links spell the old nodes and then it. |
| OrderQueue.Level.Erase | src/orderbook/orderbook.h:158 | The links spell the queue without the node, and no other node changes its data or its place among the rest. |
| OrderQueue.Level.SpliceToEnd | src/orderbook/orderbook.h:212 | The links spell the queue with the node moved behind all others; also when it is the last or the only one. |
| OrderQueue.Level.Reset | src/orderbook/orderbook.h:537 | An empty level with total zero. |
| OrderQueue.Skipped | src/orderbook/orderbook.h:158 | Links that skip one place spell the sequence without it. |
| PriorityBook.SelectRemove | src/orderbook/orderbook.h:158 | Removing one entry of the flat list removes it, at its rank, from its own level's queue and from no other. |
| PriorityBook.QueueEdit | src/orderbook/orderbook.h:163 | Editing an entry in place edits its own queue at its rank and leaves all others alone. |
| PriorityBook.AppendMoves | src/orderbook/orderbook.h:137 | An appended order is last in its own queue; the other queues are unchanged. |
| PriorityBook.MoveMoves | src/orderbook/orderbook.h:212 | An order moved to the end of the list is last in its own queue; the other queues are unchanged. |
| PriorityBook.TotalAfterAppend | src/orderbook/orderbook.h:139 | The cached total still is the level's volume after an addition. |
| PriorityBook.TotalAfterRemove | src/orderbook/orderbook.h:157 | And after an erasure. |
| PriorityBook.TotalAfterShrink | src/orderbook/orderbook.h:164 | And after a partial reduction. |
| PriorityBook.TotalAfterGrow | src/orderbook/orderbook.h:208 | And after a size increase. |
| BookRows.SidesSorted | src/orderbook/orderbook.h:354-380 | Bid prices fall strictly and ask prices rise strictly, with one row for each occupied level and none else. |
| BookRows.RowsByPrice | src/orderbook/orderbook.h:348-386 | With prices on the grid a side shows a row exactly for the prices at which orders rest, with their number and summed size. |
| BookRows.RisingFirst | src/orderbook/orderbook.h:287-294 | The first level from below that is not empty gives the first ask row. |
| BookRows.FallingFirst | src/orderbook/orderbook.h:274-281 | The first level from above that is not empty gives the first bid row. |
| BookRows.RisingPrefix | src/orderbook/orderbook.h:329-339 | A scan from below that stops early has reported the best rows. |
| BookRows.FallingPrefix | src/orderbook/orderbook.h:315-325 | A scan from above that stops early has reported the best rows. |
| BookRows.PriceHasLevel | src/orderbook/orderbook.h:89-92 | A price in range has a level, whose grid price is at most one tick below it, and is that price when the price is on the grid. |
| BookRows.HighestLevel | src/orderbook/orderbook.h:83 | The number of levels is such that the last one is the highest whose grid price is in range. |
| BookRows.LevelsHaveOwnPrices | src/orderbook/orderbook.h:278 | Different levels have different grid prices. |
| BookRows.StepKeepsGrid | src/orderbook/orderbook.h:116-142 | While messages place orders only at grid prices, every order rests in the level of its price. |
| BookRows.RenderingsAgree | src/orderbook/orderbook.h:447-463 | With positive sizes few enough to be summed in 64 bits, the levels that the pairs show are the rows of the snapshot. |
| BookLevels.LevelsAreShown | src/orderbook/orderbook.h:354-380 | The levels a query lists are exactly the occupied ones of that side, or those of them with a positive total, each once, bids from the highest and asks from the lowest. |
| BookLevels.CellsAreLevels | src/orderbook/orderbook.h:354-380 | The rows of a side are these levels, in their order, each with its own price, total and number of orders. |
| BookLevels.LevelsByPrice | src/orderbook/orderbook.h:348-386 | With prices on the grid the listed levels are exactly the prices at which orders rest, and the volume of each is the summed size at its price. |
| BookSides.PriceTakenExactly | src/orderbook/orderbook.h:89-92 | The prices with a level are exactly those above a tick below the lowest and below a tick above the highest, and each goes to the level that spans it. |
| BookSides.QueuedWhere | src/orderbook/orderbook.h:113-142 | An Add, and a Modify of an unknown id or to a new price, puts its order behind all others, among the bids for 'B' and the asks for 'A', in the level that takes its price, with its own price and size. |
| BookSides.QueuedIsLive | src/orderbook/orderbook.h:138-141 | And the id of the message finds it there. |
| BookSides.OtherSidesIgnored | src/orderbook/orderbook.h:112-113 | A message whose side is neither letter changes nothing, whatever it asks for, unless it is a reset. |
| BookSides.FirstAddShows | src/orderbook/orderbook.h:115-142 | The first order of an empty book, at a grid price, is the only row of its own side: price, size and one order; the other side is empty. |
| BookAlgebra.StepOutcome | src/orderbook/orderbook.h:107-266 | What each message does to the order it names, as a case table independent of the list. |
| BookAlgebra.StepIsLocal | src/orderbook/orderbook.h:107-266 | A message other than a reset leaves every other order as it was, in the same relative order. |
| BookAlgebra.StepVolume | src/orderbook/orderbook.h:133-261 | One message moves the size at rest in the whole book by exactly what it brings in less what it takes out of the order it names. |
| BookAlgebra.VolumeConserved | src/orderbook/orderbook.h:133-261 | Over any run, size at rest before plus size entered is size at rest after plus size that left; what enters and leaves is told from the message and the one order it names, and a reset takes out everything. |
| BookAlgebra.TotalsExact | src/orderbook/orderbook.h:29 | The cached total is the exact volume exactly when that volume is below 2^64, which it is while fewer than 2^32 orders rest. |
| BookAlgebra.OrphanedExactly | src/orderbook/orderbook.h:141 | A message leaves an order out of the index exactly when it is an Add of an id that rests already. |
| BookAlgebra.OrphanStays | src/orderbook/orderbook.h:133-261 | An orphan rests unchanged under every message but a reset. |
| BookAlgebra.DuplicateAddOrphans | src/orderbook/orderbook.h:133-166 | Two Adds of one id and a cancel leave the first order in the book. |
| BookAlgebra.PositiveExactly | src/orderbook/orderbook.h:133-228 | A message lets an empty order rest exactly when it places size zero: an Add, or a Modify of an unknown id. |
| BookRuns.RunShowsPrices | src/orderbook/orderbook.h:348-386 | After a run from the empty book that places orders only at grid prices, a side shows a row exactly for the prices at which orders rest, with their number and summed size. |
| BookRuns.RunOrphansNobody | src/orderbook/orderbook.h:133-142 | After a run without an Add of a resting id every order of the book is the live order of its id. |
| BookRuns.RunRendersAlike | src/orderbook/orderbook.h:447-463 | After a run that places no size zero, the pairs are the rows of the snapshot side by side. |
| BookSession.FeedAndShow | src/orderbook/orderbook_controller.cpp:27-68 | A new book fed with messages that place orders at grid prices shows a row exactly if orders rest at its price and its size is their sum, best price first. |
| BookSession.FeedAndShowDepth | src/orderbook/orderbook.h:307-342 | The same of the best rows: what is missing is worse than all of them, and then they are as many as asked for. |
| BookAlgebra.RunConcat | src/orderbook/orderbook.h:107-127 | Runs compose. |
| BookAlgebra.ResetForgets | src/orderbook/orderbook.h:112 | The book after a run is a fresh book fed only what came after the last reset. |
| BookAlgebra.CancelsCommute | src/orderbook/orderbook.h:144-166 | Cancels of distinct orders commute. |
| BookAlgebra.CancelsAdd | src/orderbook/orderbook.h:144-166 | Cancelling x and then y on one order is cancelling x + y when the sum fits. |
| BookTheorems.StepKeepsOrder | src/orderbook/orderbook.h:133-248 | A message keeps the list in strict order of stamps. |
| BookTheorems.RunKeepsOrder | src/orderbook/orderbook.h:107-248 | Time priority over whole runs. |
| BookTheorems.QueueIsFifo | src/orderbook/orderbook.h:28 | So every level's queue is in strict order of stamps. |
| BookTheorems.RunShrinks | src/orderbook/orderbook.h:144-248 | Over any run, an order that still has its old stamp is at the same place and no larger; whatever else is there came later. |
| BookTheorems.AheadNeverGrows | src/orderbook/orderbook.h:133-248 | The size waiting ahead of a place never grows until a reset. |
| BookTheorems.PlaceNeverWorsens | src/orderbook/orderbook.h:205-224 | An order that keeps its stamp over a run has the same level and price, is no larger, and has no more before it in its queue than it had. |
| MpscQueue.DoAccounted | core/queue/mpsc_queue.h:93-135 | Each step of any producer or the consumer keeps the exact count. |
| MpscQueue.RunAccounted | core/queue/mpsc_queue.h:86-138 | In every reachable state the counter is tickets reserved less items popped less producers between reservation and count, and it is never below zero. |
| MpscSafety.StepSafe | core/queue/mpsc_queue.h:86-138 | Each step of a disciplined run keeps slots, tickets and counter consistent. |
| MpscSafety.FifoNothingLost | core/queue/mpsc_queue.h:86-138 | In disciplined runs what was popped is a prefix of what was pushed in ticket order, push never throws, and every other item is in its slot or in the hands of its producer or the consumer. |
| MpscSafety.NoOverwrite | core/queue/mpsc_queue.h:98-100 | A store never hits a filled slot, and an empty slot behind a positive counter belongs to a producer that has its ticket and has not stored. |
| MpscSafety.QuiescentIsQueue | core/queue/mpsc_queue.h:112-138 | With nobody inside, counter and slots are a first-in first-out queue. |
| MpscBound.RunHasRoom | core/queue/mpsc_queue.h:93-103 | One producer never has more than the capacity under way, without any discipline. |
| MpscBound.Unbounded | core/queue/mpsc_queue.h:93-103 | With two producers there is a reachable state beyond any bound, for every capacity. |
| MpscBound.BoundedExactly | core/queue/mpsc_queue.h:93-103 | The backlog stays within the capacity exactly with at most one producer; otherwise within no bound. |
| MpscRing.Ring.Push | core/queue/mpsc_queue.h:86-109 | Called alone: refused, with nothing changed, exactly on a full ring, else the item is last. |
| MpscRing.Ring.Pop | core/queue/mpsc_queue.h:112-138 | Called alone: nothing on an empty ring, else the first item. |
| MpscRing.PushAlone | core/queue/mpsc_queue.h:96-103 | The six steps of a push without interleaving, as one change of state. |
| MpscRing.PopTakes | core/queue/mpsc_queue.h:114-125 | With no push under way, a positive counter means a filled slot at the tail. |
| EventBaseObject.EventBase.SetReadyTask | core/coroutine/event_base.cpp:80-83 | With room in the ring the push succeeds, and the entry is last in the real ready queue. |
| EventLoopSafety.WakeCore | core/coroutine/base_promise_type.h:20-28 | Waking a waiting task finds room in the queue, puts its entry there once, and keeps entries, queue and the running task in order. |
| EventLoopSafety.RegisterCore | core/coroutine/base_promise_type.h:13-18 | Registering a fresh task takes the first free entry, makes the task ready with that entry last in a queue that has room, and keeps everything in order. |
| EventLoopSafety.ReleaseCore | core/coroutine/event_base.cpp:73-78 | Releasing a finished task that holds its entry frees exactly that entry, which nobody else holds and no queue has. |
| EventBaseObject.EventBase.constructor | core/coroutine/event_base.h:48-49 | A pool and a ready queue of one capacity, and the invariant. |
| EventBaseObject.EventBase.StartRunning | core/coroutine/base_task.h:107-114 | From a good state a fresh task becomes ready with the first free entry of the real pool, which is last in the real queue; no acquire or push fails, and the state is good. |
| EventBaseObject.EventBase.DropHandle | core/coroutine/base_task.h:63-87 | A finished task is released once, its entry last in the pool; an unfinished one keeps its entry; the state is good. |
| EventBaseObject.EventBase.AwaitTask | core/coroutine/base_task.h:116-134 | The running task awaits a ready one that will wake it at its end; the state is good. |
| EventBaseObject.EventBase.EndTask | core/coroutine/event_base.cpp:20-26 | The task is done, its waiter ready and queued once at the back, the entry that resumed it free exactly if nobody has a handle, and no other task changed; the state is good. |
| EventBaseObject.EventBase.SetFutureValue | core/coroutine/future.h:41-79 | The first value makes ready exactly the task that it wakes, with room in the queue; a later one changes nothing. |
| EventBaseObject.EventBase.AwaitFuture | core/coroutine/future.h:107-126 | The running task awaits the future and will be woken by it exactly if no value is set; whoever is lost by this is recorded. |
| EventBaseObject.EventBase.LoopOnce | core/coroutine/event_base.cpp:95-108 | Nothing on an empty queue; else the popped entry is held by a ready task, never stale, and that task runs. |
| EventLoopSafety.StepInv | core/coroutine/event_base.cpp:5-107 | Each respectful step keeps the invariant: entries and tasks match, a ready task has one queue entry, waiting is mutual but for lost tasks and ranked, release happens once. |
| EventLoopSafety.ResumeInv | core/coroutine/event_base.cpp:5-27 | From a good state with a non-empty queue the loop can always resume, and resumes the ready task that holds the front entry. |
| EventLoopSafety.SetFutureInv | core/coroutine/future.h:69-79 | Setting a future makes ready exactly the task that it wakes, and keeps the invariant. |
| EventLoopSafety.FinishInv | core/coroutine/base_task.h:17-25 | At its end a task is done, its waiter is ready with its entry at the back of the queue, its own entry is free and its frame released if it was flagged, no other task changes, and the invariant holds. |
| EventLoopSafety.RunInv | core/coroutine/event_base.cpp:5-107 | Every respectful run keeps the invariant. |
| EventLoopTheorems.WakesExactly | core/coroutine/base_task.h:121-134 | In a respectful run with an empty ready queue every started unfinished task heads a finite acyclic wait chain to a future, which will wake the last task of the chain exactly if that is not recorded as lost. |
| EventLoopTheorems.NoLostWakeUp | core/coroutine/base_task.h:121-134 | In a careful run each such chain ends at a future that is not set and will wake its last task. |
| EventLoopTheorems.LosesExactly | core/coroutine/future.h:107-126 | A respectful run has lost nobody exactly if it was careful: it never awaited a future that was set or awaited already. |
| EventLoopTheorems.SetWakesExactly | core/coroutine/future.h:69-79 | Setting a future makes a task that awaits it ready exactly if that task is not lost. |
| EventLoopTheorems.QueueHasRoom | core/coroutine/event_base.h:48-49 | The ready queue holds each entry at most once, only entries of ready tasks and all of them, never more than the pool's size, and never refuses. |
| EventLoopTheorems.ReleasedExactlyOnce | core/coroutine/base_task.h:63-87 | A task was released once if it is done and its handle is gone, and not at all otherwise; when all are, the whole pool is free. |
| EventLoopTheorems.RespectExactly | core/coroutine/base_task.h:101-134 | A step keeps the invariant exactly when it is respectful. |
| EventLoopTheorems.RegisteredTwice | core/coroutine/base_task.h:130-133 | Starting or awaiting a task that was started before leaves it with its old entry and a new one. |
| EventLoopTheorems.LostForEver | core/coroutine/future.h:107-126 | A lost task is never resumed in any respectful continuation, whatever futures are set in it. |
| EventLoopTheorems.AwaitLoses | core/coroutine/future.h:107-126 | The task that awaits a set future, and the one that is replaced as the waiter of an unset future, are never resumed in any respectful continuation. |
| EventLoopWitness.LateAwaitHappens | core/coroutine/future.h:107-126 | A respectful run from the start in which a task awaits a future that is set, and is lost. |
| EventLoopWitness.LostIsReached | core/coroutine/base_task.h:121-134 | From there a second registration, by another task that awaits the lost one, has it resumed. |
| EventLoopEntries.RunEntries | core/coroutine/event_base.cpp:59-93 | Every run, respectful or not, keeps free entries, holders and releases consistent. |
| EventLoopEntries.EntriesBalance | core/coroutine/event_base.cpp:59-93 | Over every run a task holds as many entries as it had registrations, less the one that it gives back when it is done and its handle is gone. |
| EventLoopEntries.DanglesExactly | core/coroutine/event_base.cpp:20-26 | A step leaves an entry pointing to a destroyed frame exactly if it releases the task with another of its entries: the one that resumed it, or its latest when the handle is dropped later. |
| EventLoopEntries.DanglesForEver | core/coroutine/event_base.cpp:73-93 | Such an entry is never free again, in any continuation. |
| EventLoopEntries.PoolWholeExactly | core/coroutine/event_base.h:48 | When every registered task is over, the pool is whole exactly if each was registered once. |
| JsonText.WriteStringValue | core/json/json_value.h:108-148 | The writer appends exactly the printed form of the value. |
| JsonText.WriteItems | core/json/json_object.h:142-151 | The array loop appends the items with commas between them. |
| JsonText.WriteFields | core/json/json_object.h:152-167 | The object loop appends the fields in the order of the walk. |
| JsonParse.JsonParser.Run | core/json/json_parse.cpp:16-45 | On any text the parser object does what the specification says, flag and cursor included; the value of invalid or empty text is null. |
| JsonParse.JsonParser.ReadObject | core/json/json_parse.cpp:58-81 | The object loop, on any text. |
| JsonParse.JsonParser.ReadArray | core/json/json_parse.cpp:83-99 | The array loop, on any text. |
| JsonParse.JsonParser.ReadKey | core/json/json_parse.cpp:101-131 | The key scan, a closing brace included. |
| JsonParse.JsonParser.ReadValue | core/json/json_parse.cpp:133-209 | A value and the scan to the separator behind it, on any text. |
| JsonParse.JsonParser.ReadFound | core/json/json_parse.cpp:155-200 | The branch on the first character of a value. |
| JsonParse.JsonParser.ReadString | core/json/json_parse.cpp:211-226 | The text up to the next quote. |
| JsonParse.JsonParser.ReadNumber | core/json/json_parse.cpp:228-269 | The scan of a number and its conversion. |
| JsonParse.JsonParser.SkipToValue | core/json/json_parse.cpp:138-151 | The scan to the start of a value or a closing bracket. |
| JsonParse.JsonParser.CheckExceedSize | core/json/json_parse.cpp:47-56 | The flag falls exactly when the cursor has left the text. |
| JsonReading.ValueIsRead | core/json/json_parse.cpp:133-209 | The key fact: behind any fillers, commas and colons a spelled value is taken whole, and behind any further fillers the cursor stops on the comma or bracket that follows. |
| JsonReading.ItemsAreRead | core/json/json_parse.cpp:83-99 | The items of an array, fillers around each, are taken one by one up to its bracket. |
| JsonReading.FieldsAreRead | core/json/json_parse.cpp:58-81 | The fields of an object, fillers around each key, colon and value, are taken one by one up to its brace. |
| JsonReading.SpelledIsRead | core/json/json_parse.cpp:16-45 | A clean container, however it is spelled, is read to its last bracket, valid and in its normal form, behind any text without an opening bracket and before any text at all. |
| JsonReading.NumeralIsTaken | core/json/json_parse.cpp:247-256 | Every 64-bit number is read from any of its numerals, leading zeros included, whatever that is no digit follows; a number that does not fit gives none. |
| JsonReading.RunOnIsNoWord | core/json/json_parse.h:31-73 | A word that runs on into a letter starts no value, nor does a null that runs on into a number; otherwise it does. |
| JsonReading.NormIsStable | core/json/json_parse.cpp:58-99 | The normal form is its own normal form: what was read once reads back as it is. |
| JsonReading.NormKeepsExactly | core/json/json_parse.cpp:58-99 | A tree is its own normal form exactly when no container in it is empty. |
| JsonReading.PutSets | core/json/json_parse.cpp:73 | A key that comes again replaces the value that it had, and no other. |
| JsonReading.PaddedArrayIsMisread | core/json/json_parse.cpp:83-99 | An array with nothing but fillers between its brackets is read as an array of one null. |
| JsonReading.BraceIsTakenForKey | core/json/json_parse.cpp:101-117 | Where a closing brace comes before any quote, the brace itself is taken for a key, and the cursor stands behind it. |
| JsonReading.PaddedObjectIsRefused | core/json/json_parse.cpp:58-70 | A text that is an object with nothing but fillers between its brackets is refused. |
| JsonRoundTrip.DecimalIsRead | core/json/json_parse.cpp:247-256 | Every 64-bit number reads back from its decimal form, the smallest one included. |
| JsonRoundTrip.PrintSpells | core/json/json_object.h:140-168 | The printed text of a tree spells that tree. |
| JsonRoundTrip.ShortestSpelling | core/json/json_object.h:140-168 | Every spelling of a tree is longer than its printed text or the same. |
| JsonRoundTrip.RoundTrip | core/json/json_parse.cpp:16-45 | Printed containers are consumed to the last character, stay valid, and give the normal form, in any key order. |
| JsonRoundTrip.BlanksAreSkipped | core/json/json_parse.cpp:138-151 | The object with one field a and value 1 is read as that, whatever blanks stand behind its colon. |
| JsonRoundTrip.ParsesClean | core/json/json_parse.cpp:16-131 | Whatever is read from whatever text is null or a container, without quotes in strings, without NUL in keys, and with distinct keys. |
| JsonRoundTrip.RoundTripsExactly | core/json/json_object.h:140-168 | A tree without floating-point numbers survives exactly when its root is a container and it has no quote in a string or key, no NUL in a key and no key twice. |
| JsonPrefix.AcceptedStays | core/json/json_parse.cpp:16-56 | On any text: what is accepted ends, as far as it was read, in a closing bracket, and is accepted with the same value and cursor whatever follows. |
| JsonPrefix.CutOffIsRefused | core/json/json_parse.cpp:47-56 | A spelled container that is cut off anywhere before its last bracket is not accepted. |
| CachePool.Pool.constructor | core/cache/cache_pool.h:74-80 | Every object free, in order. |
| CachePool.Pool.Acquire | core/cache/cache_pool.h:121-151 | The first free object, which nobody holds; nothing, and no change, on an empty pool. |
| CachePool.Pool.Release | core/cache/cache_pool.h:154-182 | The object is free behind all others; a null pointer is refused. |
| CachePool.RunStaysPartitioned | core/cache/cache_pool.h:121-182 | Over every legal run each object is free once or in use, never both, never lost. |
| CachePool.FirstBackFirstOut | core/cache/cache_pool.h:121-182 | What is handed out and then what is free is what was free and then what came back. |
| CachePool.RoomToGive | core/cache/cache_pool.h:166-170 | While an object is in use the ring has a slot for it. |
| PoolSteps.StepStandsFor | core/cache/cache_pool.h:82-170 | One acquirer with one releaser: each step is one call on the simple pool or none; what is read is the first free object. |
| PoolSteps.RunRefines | core/cache/cache_pool.h:82-170 | So whole interleavings hand out the same objects in the same order as calls one after another, with a single owner each at every step. |
| PoolOwners.TwoAcquirersCollide | core/cache/cache_pool.h:131-141 | Two acquirers that both passed the size check reach an object with two owners. |
| PoolOwners.TwoReleasersCollide | core/cache/cache_pool.h:165-170 | Two releasers that store out of order reach an object with two owners. |
| PoolOwners.SoleExactly | core/cache/cache_pool.h:121-182 | Single ownership in all reachable states exactly without acquirers, or with one acquirer and at most one releaser, or with one acquirer and a single object. |
| JsonHandles.JsonHeap.Release | core/json/json_object.h:197-203 | A release with everything that follows from it, slots of freed objects included. |
| JsonHandles.JsonHeap.ReleaseAll | core/json/json_object.h:59-64 | Emptying a container releases its slots one after the other. |
| JsonHandles.JsonHeap.Clear | core/json/json.h:36-43 | The handle is empty and every other that is still there is what it was. Counts stay exact, and without cycles exactly the places survive that some handle still leads to. |
| JsonHandles.JsonHeap.CopyAssign | core/json/json.h:47-59 | Release the old value, then copy the source. Source and target then hold the same handle, the source's; every other place that is still there holds what it held. Counts stay exact, and without cycles it fails exactly where nothing else leads to the source. |
| JsonHandles.JsonHeap.MoveAssign | core/json/json.h:61-74 | The target holds what the source held, the source nothing, and every other place that is still there what it held; counts and safety as in a copy. |
| JsonHandles.JsonHeap.CreateObject | core/json/json.cpp:209-222 | The target holds the only handle to a new empty object, every other place holds what it held, and counts stay exact. |
| JsonHandles.JsonHeap.AssignPlain | core/json/json.cpp:195-207 | The old value is released, a plain one is there, and every other place that is still there holds what it held; without cycles this never fails, and counts stay exact. |
| JsonHandles.JsonHeap.AddSlot | core/json/json_object.h:36-52 | Exactly one more slot, empty, every other place as it was, counts exact. |
| JsonHandles.JsonHeap.RemoveSlot | core/json/json_object.h:83-98 | The slot is gone and what it held released; the slots behind it move up by one, every other place that is still there holds what it held, counts exact. |
| RefCount.DropConcat | core/json/json_object.h:197-203 | Releasing two lists of handles is releasing one and then the other. |
| RefCountTheorems.DropStaysCounted | core/json/json_object.h:170-203 | A release keeps every count exact. |
| RefCountTheorems.FreedAre | core/json/json_object.h:197-203 | What goes back to the pool are exactly the objects whose count fell to zero. |
| RefCountTheorems.FreedOnce | core/json/json_object.h:197-203 | And each does so once. |
| RefCountTheorems.SurvivorsAreWhole | core/json/json_object.h:197-203 | A surviving object keeps its slots. |
| RefCountTheorems.AssignStaysExact | core/json/json.h:47-59 | After a copy assignment the counts are exact and the target holds what the source held. |
| RefCountTheorems.MoveStaysExact | core/json/json.h:61-74 | After a move assignment the counts are exact, the target holds what the source held, and the source holds nothing. |
| RefCountTheorems.EmptyLeavesAlone | core/json/json.h:36-43 | Emptying a handle changes no other that is still there, whatever it frees. |
| RefCountTheorems.AssignLeavesAlone | core/json/json.h:47-59 | Of every copy that succeeds: each place other than the target that is still there holds what it held, the source too, so that source and target hold the same handle. |
| RefCountTheorems.MoveLeavesAlone | core/json/json.h:61-74 | Of every move that succeeds: each place other than the two that is still there holds what it held. |
| RefCountTheorems.RemoveLeavesAlone | core/json/json_object.h:83-98 | Of every removal: the slots behind the removed one move up by one, and each other place that is still there holds what it held. |
| RefCountTheorems.StartIsExact | core/json/json_object.h:54-57 | A pool of free objects with empty variables is exactly counted. |
| RefCountTheorems.RunStaysExact | core/json/json.h:15-74 | Over every run of creating objects, assigning plain values, adding and removing slots, copying, moving and clearing, each object counts exactly the handles and slots that refer to it. |
| RefCountReach.PathSurvives | core/json/json_object.h:197-203 | What a remaining handle leads to is never freed. |
| RefCountReach.LeaksExactly | core/json/json_object.h:197-203 | A release leaves unreachable objects behind exactly when some hold one another in a circle. |
| RefCountReach.ReleaseIsExact | core/json/json_object.h:197-203 | Without cycles the survivors are exactly the objects still led to, and exactly the rest goes back to the pool, each once. |
| RefCountReach.AssignExactly | core/json/json.h:47-74 | Without cycles an assignment is safe exactly when some handle still leads to the source once the target is emptied. |
| RefCountReach.OwnChildIsLost | core/json/json.h:47-59 | A variable that holds the last handle of an object cannot be assigned from a slot of that object. |
| ShareString.StringHeap.MakeString | core/cache/share_string.cpp:4-32 | The new string shows its text from a buffer counted once, and every other string shows what it showed. |
| ShareString.StringHeap.CheckReleaseCurrentData | core/cache/share_string.cpp:111-122 | The string shows nothing any more, every other shows what it showed, and the buffer is back in the pool exactly if no other string shows it. |
| ShareString.StringHeap.CopyString | core/cache/share_string.cpp:34-48 | Copy and move construction alike: both strings show the source's text from one buffer, all others what they showed. |
| ShareString.StringHeap.AssignString | core/cache/share_string.cpp:50-74 | The target shows what the source shows, whatever it showed before, and all others what they showed. |
| ShareString.StringHeap.FromSubstr | core/cache/share_string.cpp:76-89 | While start and length can be added in 64 bits: refused exactly if the part is not within the string, else the part is shown. Otherwise the new handle stays within its buffer exactly if its start wraps around as well. |
| ShareString.RunCounts | core/cache/share_string.cpp:4-122 | Over every run a buffer counts exactly the handles that show it, and its count is zero exactly when there are none. |
| ShareString.OthersShowTheSame | core/cache/share_string.h:56-60 | An operation on one string changes what no other string shows, shared buffers included. |
| ShareString.CopiesShowTheSource | core/cache/share_string.cpp:34-74 | A copy or an assigned string shows what its source showed. |
| ShareString.PartIsSlice | core/cache/share_string.cpp:76-83 | A part shows the slice asked for when start and length can be added in 64 bits. |
| ShareString.BoundsExactly | core/cache/share_string.cpp:78-82 | A handle gets outside its buffer exactly by a part whose start and length overflow together while its start does not wrap with them. |
| Base64.Encode | core/utils/utils.cpp:148-191 | The loop over single bytes, both tails included, gives the specified text. |
| Base64.Decode | core/utils/utils.cpp:193-236 | The loop up to padding or a foreign character, tails included, gives the specified bytes. |
| Base64.SameBits | core/utils/utils.cpp:161-164 | Three bytes and their four sextets are the same 24 bits, first digit first. |
| Base64.Regrouped | core/utils/utils.cpp:210-212 | The inverse regrouping, also for short groups whose missing sextets are arbitrary. |
| Base64.CharIsIndexed | core/utils/utils.cpp:139-146 | Every sextet has its own character, which the decoder accepts and finds. |
| Base64.AlphabetIs | core/utils/utils.cpp:139-142 | The alphabet of RFC 4648, section 4, place by place. |
| Base64.RoundTrip | core/utils/utils.cpp:148-236 | Decoding undoes encoding, for every sequence of bytes. |
| Base64.EncodedLength | core/utils/utils.cpp:148-191 | Four characters for every three bytes begun. |
| Base64.GroupsInOrder | core/utils/utils.cpp:156-170 | The k-th four characters stand for the k-th three bytes, as the same 24 bits. |
| Base64.FilledWithZeros | core/utils/utils.cpp:173-188 | The characters of a short last group are those of the group filled up with zeros. |
| Base64.DecodingStops | core/utils/utils.cpp:202 | The first character outside the alphabet ends the text, whatever follows. |
| Base64.DecodedLength | core/utils/utils.cpp:202-233 | Three bytes for every four characters, and one less than there are characters in the rest. |
| Base64.Padding | core/utils/utils.cpp:173-188 | One or two equals signs, exactly where one or two bytes are missing. |
| Base64.UnpaddedIsBody | core/utils/utils.cpp:139-146 | Everything before the padding is in the alphabet. |
| SplitString.Split | core/utils/utils.cpp:89-110 | The loop gives the pieces between the occurrences found from the left. |
| SplitString.JoinRestores | core/utils/utils.cpp:89-110 | Joining the pieces gives the input. |
| SplitString.PiecesAreClean | core/utils/utils.cpp:98-105 | No piece contains the delimiter. |
| SplitString.PiecesAreLeftmost | core/utils/utils.cpp:98-105 | Each piece but the last ends at the first occurrence of the delimiter, also where occurrences overlap. |
| SplitString.SplitsJoinedExactly | core/utils/utils.cpp:89-110 | For a one-character delimiter splitting undoes joining exactly on non-empty lists of pieces without it. |

## Left out

- OrderBookEngine.OrderBook.Apply: requires that the price offset does not overflow 64 bits and that a message which places an order names an existing level; the original has undefined behaviour there (`src/orderbook/orderbook.h:89-97`). The number of levels fits an `int`.
- OrderBookEngine.OrderBook.BuildBidAskPairs: requires at most 2000 levels with a positive total on each side, the size of the original's stack buffers.
- OrderBookEngine.OrderBook.BuildSnapshot: rows and pairs are records, not JSON trees; a side without rows is a null handle in the original.
- OrderBookEngine.OrderBook: `m_orders_ref` is a map field, not a hash table; level arrays are sequences of level objects.
- BookRows.RowsByPrice: speaks of orders at grid prices, because a price between two grid prices is shown at the lower one.
- MpscQueue.RunAccounted: steps are sequentially consistent; the memory orders of the original are not modelled.
- EventLoop: one event base on one thread; tasks and futures are values in sequence fields rather than separate frame objects. `m_is_waiting` is written but never read by the event base and is left out.
- EventLoop: a task that awaits itself, and whatever a program does after an entry that points to a destroyed frame was resumed. A second start registers the task again, as here, and then throws when it asks for the result a second time.
- EventLoop: assignment over a live task handle, threads other than the event loop's that destroy handles, `EpollBase` and the results that tasks return.
- EventLoopSafety.RunInv: assumes that a pool entry is free when a task starts; an empty pool ends the original with an exception.
- JsonParse.JsonParser.Run: carries fuel, since the original may loop for ever on malformed text; running out of it is the same `Broken` outcome as a read past the terminator. The round trips need no more fuel than the text is long.
- JsonReading.SpelledIsRead: requires distinct keys; `JsonReading.PutSets` says what a repeated key does.
- JsonText.WriteStringValue: a floating-point number is the text it was read from, without conversion or a test of its range; the unsigned 64-bit variant, raw strings (`m_is_string_format`) and the output buffer of 100000 characters are left out.
- JsonText: fields are listed in the order of the hash map's walk, so every theorem holds for every walk, but no walk is computed. A key that parses to a single brace is not an end marker, because the original compares addresses there (`core/json/json_parse.cpp:67`).
- PoolOwners.SoleExactly: `init` and `clear` of the object, which run outside the ring, are left out.
- RefCount: counts are unbounded where the original has 32 bits; names of slots, plain values and the two kinds of container are not told apart, since releasing treats them alike. `deep_clone`, `reverse` and `sort` are left out.
- ShareString: assignment of a string to itself, which dereferences a null pointer in the original, is excluded; `from_substr_with_end`, `substr` and comparison are left out.
- SplitString.Split: requires a non-empty delimiter; the original loops for ever on an empty one.
- Base64.Encode: strings shorter than the original's `int` lengths.
- Sockets, epoll, timers, TLS, HTTP, files, logging, clocks and latency figures; the market data library and its pacing.
