# Liby, modelled and proved

Liby is a C++ network library built around one event loop per thread. This project models the parts of it
whose correctness does not depend on the operating system, and proves what they guarantee. What the system
calls return, what clocks read and what user callbacks do are inputs of the model and are quantified over.

`dafny verify dfyconfig.toml` checks everything. One file per component:

| file | component | main results |
|---|---|---|
| `BinaryHeap.dfy` | the array heap of `src/BinaryHeap.h` | the in-place class refines a value-level heap; order and elements are kept for every strict weak order; `erase_if` keeps the order if and only if the moved element fits below its new parent |
| `Timestamp.dfy` | `Timestamp` of `src/util.h` | exact arithmetic, and exactly when the carry is missed |
| `Timers.dfy` | timer queue, periodic timers, cancellation, sweeps | safety of every run: never early, never after cancellation, one-shots at most once, periodic starts spaced |
| `TimerCalls.dfy` | what the calls of the timer interface mean over whole runs | a cancelled timer never starts again, only cancelled ones are skipped, every start was asked for, every log event is its step, no timer is forgotten |
| `TimerDeadlines.dfy` | what the timerfd is armed for | no timer stranded, and exactly when one is; sweeps end |
| `TimerOrder.dfy` | the order in which due timers run | earliest first, and sorted within a sweep, as long as the queue is in id order; what breaks it, and that periodic timers do not |
| `TimerQueue.dfy` | the same in place, over the array heap | every method is a run of the steps in `Timers.dfy`; a sweep runs the handlers it is given, in order |
| `EventQueue.dfy`, `EventLoop.dfy` | cross-thread handlers | no lost wakeup, push order, every run ends with every handler and exactly what it spawned executed; the in-place drain loop |
| `LoopGroup.dfy`, `EventLoopGroup.dfy` | shutdown of a loop group | bounded, and complete if and only if some worker was awake when it began; the in-place worker thread |
| `Buffer.dfy`, `BufferHistory.dfy`, `ReadPath.dfy` | `Buffer` and the read path | over every history on any number of buffers each one is the byte sequence its operations describe, in storage of its own; exactly when a buffer can be its own argument; copying is paid for by growth |
| `Connection.dfy` | the write queue | the wire is exactly what the kernel reported, call by call; bytes conserved in order, completion handlers in order and in time, write interest kept |
| `HttpText.dfy`, `HttpRequest.dfy`, `RequestRoundTrip.dfy`, `RequestText.dfy`, `RequestCuts.dfy`, `RequestParser.dfy` | requests | exactly the well-formed requests survive printing and parsing; what any head is parsed to, text written out: both versions, both line ends, any percent-encoding; exactly the cuts behind a line are harmless when they arrive in pieces |
| `HttpReply.dfy`, `ReplyText.dfy`, `ReplyCuts.dfy`, `ReplyPieces.dfy`, `HttpClient.dfy` | replies and the client | exactly the well-formed replies survive; what any reply text is parsed to and who gets it; pipelined replies reach their requests; exactly which incomplete replies hang the read loop, and which cuts between two read events do no harm |
| `HttpServer.dfy`, `ServerReplies.dfy` | the server's read loop and its responses | what becomes of any head, text written out; pipelined requests; a head in two read events is served as in one iff it is cut behind a line; exactly when responses come out in order |
| `Trie.dfy` | `Trie` of `src/util.h` | the linked 95-way tree is a map |
| `Wrappers.dfy` | an optional value | |
| `HandlerLists.dfy` | the three handler lists and one loop round | every handler once, in enqueue order, also those added during the pass |

Two styles are used. Where the original updates an object in place there is a class, and its methods are
proved against functions on values; theorems are then proved about those functions. What several threads do
to each other is a step relation, and theorems are about all its runs.

## What the code does where its interface suggests otherwise

- `operator<` on heap entries is the conjunction "earlier and older" and no weak order. It is the order of
  timeouts exactly while the queue is in id order (`OrderCoincidesIff`); then the earliest timer runs first
  (`EarliestFirst`), and a sweep starts its handlers sorted by timeout (`StartsInOrder`), unless a handler enters
  a timer that is due before the handler's own: that one runs next, out of order (`EarlierInsertBreaksOrder`). A
  periodic timer never does so by re-entering itself, whatever the sign of its interval (`PeriodicNotEarlier`).
- A second timer does not move the deadline d that an earlier insertion armed: nothing starts before d
  (`SecondTimerWaits`), so the new timer is kept waiting exactly when it is due before d (`KeptWaitingIff`).
- `erase_if` only percolates down. `EraseCanBreakOrder` gives a heap that it spoils, `EraseOrdersIff` the exact
  condition.
- `insert` arms the timerfd only for an empty queue. When that first timeout is zero or not canonical nothing is
  armed, and no timer of that loop ever runs again (`FirstInsertArmsIff`, `StrandedForever`).
- `runEvery` enters its interval itself as the first absolute timeout, so a new periodic timer is due at once.
- The sum of two canonical timestamps is not canonical when the microseconds add up to exactly one second, and
  then compares below the same instant (`MissedCarry`).
- The `DeferCaller` in `handleWritEvent` is a temporary and runs on entry. Write interest therefore stays on when
  the queue drains and goes off at the next write event.
- A completion handler of a file task that destroys the connection makes the following `pop_front` work on an
  empty deque, and sending on a destroyed connection uses a reset channel: outcome `Crashed`.
- A system call that returns 0 is taken for an error: an empty file task, or a run of buffer tasks that are all
  empty, ends in the error callback. An empty buffer task among others is completed normally.
- `prepend` fails, by writing in front of its storage, exactly when the bytes fit neither before the window nor in
  the capacity. A buffer that is appended to itself hands in a pointer that stays behind when its window moves and
  dangles when a larger storage takes over: it is doubled exactly when its bytes fit behind the window, or the
  window stands at least twice its length behind the front, so that the old bytes survive the move and the copy
  (`AppendOwn`). Prepended to itself, its window must not move at all, as `memcpy` would read where it writes; that
  is undefined even where the bytes read have not moved, for a window at the front (`PrependOwn`). The last branches
  of `forward` and `backward`, and `backward(0)`, replace the contents by other bytes of the storage, or reach
  behind it. `reserve` on an empty capacity and `retriveveAsString` on an empty buffer do not return.
- `std::find` never returns a null pointer, so the "incomplete" tests of both parsers never fire, and what a head
  that is cut inside a line leads to depends on the cut. Behind the request line or a field, parsing resumes. One
  byte into a field the parser takes that byte for the blank line: the truncated request is served, and one byte
  more than there is counts as read (`FieldCutIsServed`; `CutRequestIsServed` is an instance). Elsewhere in the
  header section it reads behind its input (progress `Undefined`); in the request line it fails as an unknown method
  or version, or reads behind its input. In front of the very last byte the parser is `Good` already, and the server
  takes the byte that is left for a request of its own (`ResumesExactlyAtLines`, `SplitServedIff`).
- A header line without a colon, or with nothing but spaces on one side of it, throws or reads outside its line: it
  is `Undefined` as well (`BrokenIff`, `BrokenLineAborts`).
- Two characters behind a '%' are not checked: any two are taken for hexadecimal digits (`AnyIsHexDigit`).
- A reply with an empty content and no Content-Length makes `stoi` throw. The client's loop spins for ever on a
  status that fits an int and is unknown (`UnknownStatusSpinsIff`), and on a well-formed reply exactly when the input
  ends inside the content or inside the status number (`CutReplySpinsIff`, `SpinningIsForever`).
- A reply that arrives in two read events is delivered as one only when it is cut at the end of its head, or behind a
  header field with the Content-Length already read (`SplitDeliveredIff`). In front of the last byte of the head the
  handler gets a content that begins with that newline and misses its last byte (`CutGivesShiftedContent`).
- `HttpClient::sendRequest` sends the terminating NUL of the printed request and the body a second time. The
  server serves the request and takes the rest for the next one (`ClientMeetsServer`).
- The server queues the file of a response only when its head has been written. So responses come out in order
  exactly when no request is served while the head of another is still to be written (`ResponsesInOrderIff`); of
  requests that arrive in one read event all heads come before all files (`PipelinedResponsesMix`).
- A bad request is answered with the empty string, which `send` drops (`SendString`) together with the handler that
  would have destroyed the connection.
- After a request without keep-alive the server does not clear its parser, so whatever arrives next makes it
  serve the same request again (`ClosingServesAgain`).
- When `bf_` turns false while every worker of a group is blocked without a token, nobody wakes anybody
  (`ShutdownIff`).
- A handler put on the `nextLoop` list by a `nextLoop` handler runs in the same round (`RunsInThisPass`), and a
  `nextTick` handler enqueued by an `afterLoop` handler waits for the next round that delivers an event
  (`LoopOnce`).

## Model

| member | source | states |
|---|---|---|
| `Timestamps.ArithmeticExact` | src/util.h:264-280 | on canonical operands `+` and `-` are exact in microseconds; a sum is canonical iff the microsecond parts do not add up to one second, a difference always is |
| `Timestamps.SubThenAdd` | src/util.h:264-280 | (a - b) + b is the same instant as a |
| `Timestamps.CompareAgrees` | src/util.h:221-235 | on canonical values `compareTo` is the order of microseconds, all three results |
| `Timestamps.MissedCarry` | src/util.h:168-175 | the parts add up to one second iff the sum denotes the instant of the next full second and yet compares below it |
| `Timestamps.MadeIsNearlyCanonical` | src/util.h:168-175 | whatever 32-bit microseconds it is given, the constructor keeps the instant and the sign of the microseconds, and leaves more than minus one second and at most one second of them |
| `Timestamps.AddMonotone` | src/util.h:278-280 | adding an interval, negative ones included, to a later clock never gives an earlier time, whatever 32-bit microseconds the interval was made from |
| `Timestamps.AddAfter` | src/util.h:278-280 | a positive interval added to a clock lies after that clock |
| `HeapSpec.InsertAdds` | src/BinaryHeap.h:44-52 | for any relation, insert adds exactly the new element to the multiset |
| `HeapSpec.EraseRemoves` | src/BinaryHeap.h:66-67 | for any relation, removal takes away exactly the element of the slot |
| `HeapSpec.BuildKeepsElems` | src/BinaryHeap.h:99-102 | for any relation, build permutes |
| `HeapSpec.InsertKeepsRoot` | src/BinaryHeap.h:48-51 | for any relation, an element that is not smaller than the root does not displace it |
| `HeapSpec.UpOrders` | src/BinaryHeap.h:48-51 | percolating up repairs a heap, or the part of it behind given slots that the element does not pass, when only the percolated slot may be too small |
| `HeapSpec.DownOrders` | src/BinaryHeap.h:104-119 | percolating down repairs a heap, or a part of it, whose only misplaced slot may be too big |
| `HeapSpec.InsertOrders` | src/BinaryHeap.h:44-52 | insert keeps heap order for every strict weak order |
| `HeapSpec.InsertOrdersFrom` | src/BinaryHeap.h:44-52 | so it does for the part behind given slots, when the new element is not smaller than these; the order need only be weak on that part |
| `HeapSpec.DeleteMinOrders` | src/BinaryHeap.h:71-78 | removing the root restores heap order when only the root is out of order, whatever the root is |
| `HeapSpec.BuildOrders` | src/BinaryHeap.h:99-102 | build establishes heap order for every strict weak order |
| `HeapSpec.RootIsLeast` | src/BinaryHeap.h:40-42 | in an ordered heap no element is smaller than `find_min()` |
| `HeapSpec.EraseOrdersIff` | src/BinaryHeap.h:54-69 | removal of a slot keeps heap order iff the former last element fits below the parent of the slot |
| `HeapSpec.EraseCanBreakOrder` | src/BinaryHeap.h:54-69 | a heap of seven integers that `erase_if` leaves out of order |
| `BinaryHeaps.BinaryHeap.FromItems` | src/BinaryHeap.h:29-34 | construction from a vector is build on that vector |
| `BinaryHeaps.BinaryHeap.Insert` | src/BinaryHeap.h:44-52 | the hole-moving loop on the array, with doubling, refines the insert specification |
| `BinaryHeaps.BinaryHeap.PercolateDownAt` | src/BinaryHeap.h:104-119 | the hole-moving loop refines the percolation specification |
| `BinaryHeaps.BinaryHeap.Build` | src/BinaryHeap.h:99-102 | the loop from size/2 down refines the build specification |
| `BinaryHeaps.BinaryHeap.FirstMatch` | src/BinaryHeap.h:57-65 | the first slot that the predicate accepts, or one past the end |
| `BinaryHeaps.BinaryHeap.EraseIf` | src/BinaryHeap.h:54-69 | exactly the first match is erased, nothing if there is none |
| `BinaryHeaps.BinaryHeap.DeleteMin` | src/BinaryHeap.h:71-78 | the root is removed and the vacated slot blanked |
| `BinaryHeaps.BinaryHeap.PopMin` | src/BinaryHeap.h:80-88 | hands out the root and leaves the same heap as `delete_min()` |
| `BinaryHeaps.DrainSorted` | src/BinaryHeap.h:29-88 | draining a heap built from any vector gives a sorted permutation of it, for every strict weak order |
| `TimerSafety.TimersAreSafe` | src/TimerQueue.cpp:82-107 | the log of every run of calls, handlers and sweeps is safe: no handler before its timeout, none after cancellation, one-shots at most once and as requested, periodic starts an interval apart, one pending entry per id; `LogRecordsSteps` and `CancelledNeverStarts` tie it to the steps |
| `TimerSafety.StepKeeps` | src/EventLoop.cpp:76-102 | every single step keeps the invariant behind that theorem |
| `TimerSafety.CancelKeeps` | src/TimerMixin.cpp:39-47 | a cancellation takes the owner away, of this timer and no other, logs it iff there was one, changes nothing else, and keeps the invariant |
| `TimerSafety.StartKeeps` | src/EventLoop.cpp:92-99 | so does a handler start, including the re-insertion of a periodic timer under its own id |
| `TimerSafety.ReturnDeletesTheRunningEntry` | src/TimerQueue.cpp:96-102 | whatever the handler inserted or cancelled, `delete_min` removes the entry whose handler just ran, and only that |
| `TimerCalls.CancelledNeverStarts` | src/TimerMixin.cpp:39-47 | in every run, once a step has cancelled a timer that had been given out, no later step starts a handler of that timer |
| `TimerCalls.SkippedWasCancelled` | src/TimerQueue.cpp:89-103 | and an expired entry is skipped only if an earlier step has cancelled its timer |
| `TimerCalls.StartedWasAsked` | src/EventLoop.cpp:76-102 | every start is of a timer that a call has made, of the kind asked for; its timeout is the one asked for or, for a periodic timer, one interval behind the clock of an earlier start; its sweep read a clock not before that timeout |
| `TimerCalls.LogRecordsSteps` | src/EventLoop.cpp:76-102 | each event of the log is what one step did, in the order of the steps: created by runAt, runAfter or runEvery with that kind and timeout, cancelled by that call, started by that root; and each timer that a step makes is in the log |
| `TimerCalls.NeverForgotten` | src/TimerQueue.cpp:89-103 | until a step cancels it, a timer that a call has made is owned and pending: a one-shot with its own timeout as long as its handler has not started, a periodic one at all times |
| `TimerDeadlines.NoTimerStranded` | src/TimerQueue.cpp:131-150 | in every run with armable timeouts, between sweeps a non-empty queue is armed for the timeout of a pending entry |
| `TimerDeadlines.FirstInsertArmsIff` | src/TimerQueue.cpp:136-138 | an insertion into the idle empty queue arms the timerfd for its timeout iff that has seconds not below 0, microseconds from 0 to 999999, and is not zero |
| `TimerDeadlines.FinishArmsIff` | src/TimerQueue.cpp:104-106 | the end of a sweep arms the timerfd for the timeout of the root under exactly the same condition |
| `TimerDeadlines.StrandedForever` | src/TimerQueue.cpp:39-50 | once a non-empty idle queue is not armed, no run from there ever arms it or starts a handler |
| `TimerDeadlines.SweepIsBounded` | src/TimerQueue.cpp:89-103 | while handlers add only later timers, removals plus entries still due stay equal to the entries due at the start |
| `TimerDeadlines.SweepEnds` | src/TimerQueue.cpp:82-107 | so every such sweep of every run removes at most the entries that were due when it fired |
| `TimerDeadlines.PeriodicIsQuiet` | src/EventLoop.cpp:93-96 | a periodic timer with a positive interval re-enters itself later than the sweep |
| `TimerOrder.OrderCoincidesIff` | src/TimerQueue.h:89-93 | `operator<` is the order of timeouts iff timeouts do not decrease with ids |
| `TimerOrder.EarliestFirst` | src/TimerQueue.cpp:88-103 | in every run whose pending entries stay in id order, periodic timers included, the next handler belongs to an earliest entry, and a sweep ends with no due entry left |
| `TimerOrder.LoneTimerInOrder` | src/EventLoop.cpp:92-99 | from a queue that holds one timer, periodic or not, every run without new timers stays in id order |
| `TimerOrder.StartsInOrder` | src/TimerQueue.cpp:89-103 | in such runs, within a sweep whose handlers enter nothing due before their own timeout, handlers start in the order of their timeouts |
| `TimerOrder.PeriodicNotEarlier` | src/EventLoop.cpp:92-99 | in every run a periodic timer re-enters itself at or after the timeout it runs for, whatever the sign of its interval |
| `TimerOrder.EarlierInsertBreaksOrder` | src/TimerQueue.cpp:96-102 | the first handler of a sweep that does enter such a timer, by a call or by re-inserting itself, makes it start next, in the same sweep, with a smaller timeout |
| `TimerOrder.EarlierInsertExample` | src/TimerQueue.cpp:96-102 | a run in id order in which this happens: a timer due at 10 runs at 20 and enters one due at 5 |
| `TimerOrder.SecondTimerWaits` | src/TimerQueue.cpp:136-140 | in every run from an idle state that is armed for d and has a pending entry, no handler starts at a time before d |
| `TimerOrder.KeptWaitingIff` | src/TimerQueue.cpp:136-140 | a timer entered there is, at some reading of the clock, due while no sweep may begin iff it is due before d and d is still ahead |
| `TimerQueues.TimerQueue.Insert` | src/TimerQueue.cpp:131-150 | in place: arms for an empty queue only, then inserts into the array heap |
| `TimerQueues.TimerQueue.Execute` | src/EventLoop.cpp:76-102 | in place: one call of the interface is one step of the model; runAt, runAfter and runEvery leave an owned timer of their kind, interval and timeout under the next id, and a cancellation takes away the owner of that id and no other |
| `TimerQueues.TimerQueue.Serve` | src/TimerQueue.cpp:96-102 | in place: a due owned root runs its handler to the end and is then deleted |
| `TimerQueues.TimerQueue.HandleTimeoutEvents` | src/TimerQueue.cpp:82-107 | in place: a sweep is the firing, then one block for each handler that starts, from its start over exactly the calls of its script to its removal, in the order of the scripts, with expired roots skipped in between, and then the end; it ends, or has used all scripts |
| `TimerQueues.QuietSweepEnds` | src/TimerQueue.cpp:89-103 | an unfinished sweep whose handlers enter only later timers has started at most as many handlers as entries were due when it fired |
| `TimerQueues.ObjectIsSafe` | src/TimerQueue.cpp:82-107 | the log of the in-place object is safe whatever was called, and in its history no handler of a cancelled timer starts |
| `EventQueues.NoLostWakeup` | src/EventQueue.cpp:51-84 | in every interleaving, queued work implies a token, a wakeup still owed or a draining loop; executed followed by queued is the push order; each producer's order is kept; what the loop thread has pushed, followed by what its running handler has left to push, is what the executed handlers spawn, in order; nothing is dropped or doubled |
| `EventQueues.EveryRunEnds` | src/EventQueue.cpp:63-65 | every run is shorter than a rank computed from the programs |
| `EventQueues.EndedMeansAllExecuted` | src/EventLoop.cpp:71-74 | where no step is possible any more, every handler of every program has run in order, so has what the executed handlers spawned, handler by handler in the order in which they ran, and nothing else |
| `EventQueues.StuckIsDone` | src/EventQueue.cpp:54-66 | a state without wakeup lost that cannot move has an empty queue and idle producers |
| `EventLoops.BlockingQueue.PopFront` | src/BlockingQueue.h:39-42 | takes exactly the front element |
| `EventLoops.EventQueue.RunEventHandler` | src/EventLoop.cpp:71-74 | in place: push and wakeup, with other threads moving in between, are steps of the model, and it is this handler that the loop thread pushes |
| `EventLoops.EventQueue.RunHandler` | src/EventLoop.cpp:71-74 | in place: a running handler pushes exactly its own handlers, in order, whatever other threads push in between |
| `EventLoops.EventQueue.HandleRead` | src/EventQueue.cpp:54-66 | in place: whatever the other threads do meanwhile, the drain loop ends, and everything pushed so far has run in push order |
| `EventLoops.ObjectIsSafe` | src/EventQueue.cpp:51-84 | no reachable state of the object has lost a wakeup; handlers ran in push order, and the loop thread pushed what they spawned |
| `LoopGroups.NobodyForgottenRun` | src/EventLoopGroup.cpp:57-59 | in every run a loop that some worker has woken is not blocked without a token |
| `LoopGroups.ShutdownIsBounded` | src/EventLoopGroup.cpp:37-60 | once `bf_` is false the workers make a bounded number of steps, whatever events arrive |
| `LoopGroups.OneExitMeansAll` | src/EventLoopGroup.cpp:57-59 | where workers cannot move any more and one has exited, all have |
| `LoopGroups.TestDecides` | src/EventLoopGroup.cpp:37-60 | a worker that tests `bf_` waits in its poller if it is still true, and goes on to wake every loop if it is not |
| `LoopGroups.TestsAreEarned` | src/EventLoopGroup.cpp:37-60 | between two tests a worker was in its poller, and left it for a token or for another event |
| `EventLoopGroups.EventLoopGroup.WakeEveryone` | src/EventLoopGroup.cpp:57-59 | in place: waking one loop after the other, with other threads moving in between, is a run of the model; at its end every loop of the group has a token, or has taken one since it began |
| `EventLoopGroups.EventLoopGroup.WorkerThread` | src/EventLoopGroup.cpp:37-60 | in place, under any schedule of tests of `bf_`: the thread ends only by having seen `bf_` false, with every loop woken since, and at its first test if `bf_` is false before; it stops short only where it is blocked without a token |
| `EventLoopGroups.ObjectIsSafe` | src/EventLoopGroup.cpp:37-60 | in no reachable state of the object has a woken loop been left blocked without a token |
| `LoopGroups.ShutdownIff` | src/EventLoop.cpp:42-67 | without outside help shutdown completes iff some worker was awake, or had a token, when `bf_` turned false |
| `Buffers.Buffer.Append` | src/Buffer.cpp:109-125 | contents grow by exactly the bytes; new storage is taken iff they do not fit into the capacity; the bytes copied are at most the growth of the capacity, and the capacity stays below twice what is needed |
| `Buffers.Buffer.AppendBuffer` | src/Buffer.cpp:104-125 | likewise for another buffer, which keeps its contents; appended to itself, a buffer is doubled iff it is empty, fits behind itself, or stands at least twice its size behind the front |
| `Buffers.Buffer.AppendOwn` | src/Buffer.cpp:109-138 | in place, with the pointer into the own storage taken before the window moves: the copy is defined, and doubles the contents, under exactly that condition |
| `Buffers.Buffer.AppendString` | src/Buffer.cpp:127-129 | a string is appended with its terminating NUL |
| `Buffers.Buffer.Prepend` | src/Buffer.cpp:142-159 | works iff the bytes fit before the window or into the capacity, and then puts exactly the bytes in front |
| `Buffers.Buffer.PrependBuffer` | src/Buffer.cpp:140-159 | likewise for a non-empty buffer; prepended to itself, iff its window need not move |
| `Buffers.Buffer.PrependOwn` | src/Buffer.cpp:142-159 | in place, with the pointer into the own storage: the copy in front is defined iff the window did not move |
| `Buffers.Buffer.Forward` | src/Buffer.cpp:161-183 | for every offset: the memmove branches keep the contents, the reset branch drops them, the last one replaces them by other bytes of the storage, or fails iff these would lie behind it |
| `Buffers.Buffer.Backward` | src/Buffer.cpp:185-208 | likewise toward the end of the storage, for every offset, with the exact contents in each branch; `backward(0)` fails iff there is more room than contents |
| `Buffers.Buffer.Reserve` | src/Buffer.cpp:210-217 | the doubling loop ends, reaches the size and stays below twice of it; contents kept |
| `Buffers.DoublesUntilEnough` | src/Buffer.cpp:210-217 | the capacity is doubled as often as needed and not once more |
| `Buffers.Buffer.Resize` | src/Buffer.cpp:219-227 | never shrinks; contents kept at their place |
| `Buffers.Buffer.Retrieve` | src/Buffer.cpp:231-244 | drops that many bytes from the front, all of them if there are fewer |
| `Buffers.Buffer.RetrieveAsString` | src/Buffer.cpp:248-255 | what is returned followed by what is left is what was there |
| `Buffers.Buffer.DeepCopy` | src/Buffer.cpp:50-63 | the contents of the other buffer in storage of its own |
| `Buffers.Buffer.Swap` | src/Buffer.cpp:72-77 | exchanges storage and window |
| `Buffers.AppendAll` | src/Buffer.cpp:109-125 | over any append-only run the contents are the chunks in order and all copying is at most final minus initial capacity |
| `BufferHistories.Act` | src/Buffer.cpp:50-255 | each operation other than swap, the buffer overloads and the read path's `append(off_t)` included, works exactly under its stated condition, which for each operation is what the operation itself finds, and leaves bytes, window and capacity as stated |
| `BufferHistories.RunSwap` | src/Buffer.cpp:72-77 | swap exchanges two byte sequences and keeps all storages disjoint |
| `BufferHistories.RunCalls` | src/Buffer.cpp:50-268 | over every history of append, prepend, retrieve, retriveveAsString, reserve, resize, deepCopy, swap and reading in, on any number of buffers and with any of them, themselves included, as arguments: storages stay pairwise disjoint, every buffer is the byte sequence that the calls describe, where the calls leave it, and so is every string taken out; the history stops exactly at the first call whose condition fails where the calls before it have left the bytes |
| `BufferHistories.AfterAllMeans` | src/Buffer.cpp:109-227 | wherever forward, backward, reserve and resize move the bytes in a history that works, the contents are what its calls mean for byte sequences |
| `ReadPath.HandleReadEvent` | src/Connection.cpp:129-160 | the buffer grows by exactly the bytes readv returned, however they were split over the two areas, and the callback follows; EAGAIN changes nothing, end of stream and errors go to the error handler |
| `WriteQueue.FireKeeps` | src/Connection.cpp:216-224 | starting the handler of a task whose bytes are out keeps bytes conserved, handlers in order and in time, and write interest |
| `WriteQueue.PopKeeps` | src/Connection.cpp:190-195 | so does popping the task |
| `WriteQueue.CutKeeps` | src/Connection.cpp:196-200 | so does shortening a partly written task |
| `WriteQueue.DestroyKeeps` | src/Connection.cpp:30-42 | so does destroying |
| `WriteQueue.FileBytes` | src/Connection.cpp:178-200 | a file task stands for the bytes of the file from its offset on, up to its length or the end of the file |
| `Connections.CrashingMeans` | src/Connection.cpp:30-87 | a callback crashes iff it sends behind destroying, or destroys from the handler of a file task |
| `Connections.Connection.Send` | src/Connection.cpp:56-87 | in place: queues the task behind all others and turns write interest on |
| `Connections.Connection.SendString` | src/Connection.cpp:94-100 | an empty string is dropped |
| `Connections.Connection.Settle` | src/Connection.cpp:215-229 | in place: the loop over what one writev wrote, for any handlers, leaves a conserved queue |
| `Connections.Connection.FileTaken` | src/Connection.cpp:190-200 | in place: a complete or partial sendfile does |
| `Connections.Connection.WriteTurn` | src/Connection.cpp:178-239 | one pass: the wire grows by exactly the leading bytes of the queue that the system call reported, up to the whole file task or run of buffer tasks it was made for; the tasks they cover are completed, and it blocks, fails or goes on accordingly |
| `Connections.Connection.HandleWritEvent` | src/Connection.cpp:162-240 | for any system call results and any handlers: the wire grows by exactly what the calls report, call by call from the tasks that the calls before leave; the outcome is that of the last call, and the loop goes on exactly while whole runs are taken; the handlers that ran do what the environment says, in order, and exactly what they enqueue joins the submissions; write interest stays on; the connection is closed only by the error callback or by a handler, and a crash happens exactly in the last callback and only for the two reasons listed |
| `Connections.Connection.DestroyNow` | src/Connection.cpp:30-42 | in place: the queue is emptied, once |
| `EventLoops.EventQueue.BecomeReadable` | src/EventQueue.cpp:54 | the poller reports the descriptor only when a token is pending |
| `Connections.Connection.HandleError` | src/Connection.cpp:242-248 | the error callback runs once, what it enqueues is discarded, and the connection is destroyed |
| `Connections.DrainedMeansAllSent` | src/Connection.cpp:162-240 | on a live connection with an empty queue all submitted bytes are on the wire in order and every handler has run, once, in order |
| `Connections.HandlersRunInTime` | src/Connection.cpp:215-224 | the wire is always a prefix of the submissions and contains the whole task of every handler that ran |
| `HttpText.EnterRebuilds` | src/http/HttpDef.cpp:315-320 | entering the printed fields in any iteration order gives the header map back |
| `HttpText.HeaderRoundTrip` | src/http/HttpDef.cpp:260-279 | a printed well-formed field parses back, anywhere in the input |
| `HttpText.ParsedHeaderOk` | src/http/HttpDef.cpp:260-279 | conversely every field that parses is well-formed |
| `HttpText.BrokenIff` | src/http/HttpDef.cpp:260-279 | a line of more than one character is no field, so that ParseHeader throws or reads outside of it, iff it has no colon or nothing but spaces on one side of its first one |
| `HttpText.NextLineField` | src/http/HttpDef.cpp:157-173 | a field with any spaces around its colon and either line end is read as its key and value |
| `HttpText.EnterLast` | src/http/HttpDef.cpp:277 | a later field replaces an earlier one of the same key |
| `HttpText.SpacesAre` | src/http/HttpDef.cpp:271-274 | the six characters that are skipped around a colon |
| `HttpText.NextLineInside` | src/http/HttpDef.cpp:157-173 | a complete field reads the same whatever follows it |
| `HttpText.LineStartIs` | src/http/HttpDef.cpp:157-173 | a position counts as the beginning of a line iff it lies behind some number of whole printed fields |
| `RequestCuts.ResumesExactlyAtLines` | src/http/HttpDef.cpp:122-176 | for every well-formed request, header order and cut: feeding the two parts of the printed head gives what one call gives iff the cut lies directly behind the request line or a field, or in front of the last byte |
| `RequestCuts.PiecesResumeIff` | src/http/HttpDef.cpp:122-176 | any number of non-empty pieces are parsed as a whole iff every cut is such a cut |
| `RequestCuts.FieldCutIsServed` | src/http/HttpDef.cpp:162-165 | cut one byte into a field, the head is parsed as a complete request with the fields before it, and one byte more than there is counts as read |
| `RequestCuts.CutRequestIsServed` | src/http/HttpDef.cpp:162-165 | the 17 bytes of a request line and an "H" are a complete request of 18 bytes |
| `RequestRoundTrip.RequestRoundTripIff` | src/http/HttpDef.cpp:306-326 | for every header order and every trailing input, parsing a printed request gives back method, uri, query and headers with exactly the head consumed iff the request is well-formed |
| `RequestRoundTrip.ParseHexInverts` | src/http/HttpDef.cpp:77-92 | two hexadecimal digits of either case decode to the byte they denote |
| `RequestRoundTrip.AnyIsHexDigit` | src/http/HttpDef.cpp:77-92 | any other character counts as a digit too: with its case bit set, from 10 at 'a' on |
| `RequestRoundTrip.EscapeRoundTrip` | src/http/HttpDef.cpp:219-231 | a target, any part of it percent-encoded in either case, decodes to itself |
| `RequestText.RequestTextParses` | src/http/HttpDef.cpp:122-303 | every head, written with either line end, free spaces around the colons and any part of its target percent-encoded, is read for what it says, HTTP/1.0 with minor 0 and HTTP/1.1 with minor 1, with exactly the head consumed; any other version is an invalid version, any other method than the four an invalid method |
| `RequestText.TargetMeans` | src/http/HttpDef.cpp:209-246 | of a decoded target, the uri is what stands in front of the first '?' or NUL, the query what follows the last '?' up to a NUL |
| `RequestText.BrokenLineIsUndefined` | src/http/HttpDef.cpp:260-279 | a header line that is no field makes the parser throw or read outside of it, whatever came before and follows |
| `RequestText.PrintedIsText` | src/http/HttpDef.cpp:306-326 | `toString` writes such a head, with HTTP/1.1 and \r\n |
| `RequestParsers.RequestParser.Parse` | src/http/HttpDef.cpp:122-176 | in place: the fall-through switch computes the parser state of the specification |
| `RequestParsers.RequestParser.DecodeLoop` | src/http/HttpDef.cpp:220-231 | the copying loop computes the decoded target, or stops where it would read past the input |
| `RequestParsers.RequestParser.ParseHeaders` | src/http/HttpDef.cpp:157-174 | the header loop computes the stage of the specification |
| `RequestParsers.RequestParser.Clear` | src/http/HttpDef.cpp:178-185 | a cleared parser is a new one |
| `HttpReply.StoiInverts` | src/http/HttpDef.cpp:386 | `stoi` undoes `to_string` up to the range of int and throws beyond |
| `ReplyText.StatusNumbers` | src/http/HttpDef.cpp:59-75 | the sixteen status numbers that are known, and how they are printed |
| `ReplyText.TextsBelow400` | src/http/HttpDef.cpp:41-48 | their texts, those from 200 to 304 |
| `ReplyText.TextsFrom400` | src/http/HttpDef.cpp:49-56 | and those from 400 to 503 |
| `ReplyText.ReplyTextParses` | src/http/HttpDef.cpp:328-400 | every reply with a known number, any reason, either line end, any fields with a Content-Length among them and that many bytes behind them is read for what it says, with exactly these bytes consumed |
| `ReplyText.TextIsDelivered` | src/http/HttpClient.cpp:35-59 | and the read loop gives it to the first outstanding request and goes on with what follows; with none outstanding it takes the front of an empty list |
| `ReplyText.OtherVersionFails` | src/http/HttpDef.cpp:410-425 | input that begins with any other word than HTTP/1.1, HTTP/1.0 included, fails |
| `ReplyText.BrokenLineAborts` | src/http/HttpDef.cpp:445-464 | a header line that is no field ends the read loop by an exception or a read outside of the line |
| `ReplyText.ContentIsFramed` | src/http/HttpDef.cpp:386-398 | "HTTP/1.1 200 Ok", "Content-Length: n", an empty line and n bytes, written out, are parsed to exactly these n bytes, for every content up to the largest int |
| `ReplyText.ContentIsPrinted` | src/http/HttpDef.cpp:94-114 | and that text is what a reply with only a content is printed as |
| `ReplyText.PrintedIsText` | src/http/HttpDef.cpp:94-114 | every printed reply is such a text |
| `HttpReply.ReplyRoundTripIff` | src/http/HttpDef.cpp:94-114 | for every header order and every trailing input, parsing a printed reply gives it back, content included, iff its status is known, its headers are well-formed and its length can be told |
| `ReplyCuts.IncompleteContentSpins` | src/http/HttpClient.cpp:36-58 | in the body stage the read loop spins for ever, at once, iff some but not all of the content is there |
| `ReplyCuts.CutReplySpinsIff` | src/http/HttpClient.cpp:36-58 | of a well-formed reply that has arrived up to any byte, the read loop never ends iff the input ends strictly inside the content, or strictly inside the status number |
| `ReplyCuts.UnknownStatusSpinsIff` | src/http/HttpDef.cpp:347-355 | for every number and everything that follows it: the read loop stops for ever at the status of its first reply iff the number fits an int and is no known status |
| `ReplyPieces.SplitDeliveredIff` | src/http/HttpClient.cpp:35-59 | for every well-formed reply, header order and cut: two read events give what one gives iff the cut lies at the end of the head or behind a field with the Content-Length before it, and there is a content; or, for an empty content that nobody waits for, in front of the last byte |
| `ReplyPieces.CutGivesShiftedContent` | src/http/HttpClient.cpp:35-59 | cut in front of the last byte of its head, a reply reaches its handler with a newline in front of its content and without its last byte, and the byte left over fails |
| `HttpClients.Pipelining` | src/http/HttpClient.cpp:35-59 | on any sequence of well-formed replies the loop ends with an empty buffer and has given the i-th reply to the i-th outstanding request |
| `HttpClients.ServesInOrder` | src/http/HttpClient.cpp:50-57 | whatever arrives, handlers are called for the outstanding requests from the front on, once each |
| `HttpClients.SpinningIsForever` | src/http/HttpClient.cpp:36-58 | where a round consumes nothing, the parser and the buffer are a fixed point of the loop |
| `HttpClients.ReplyParser.ParseReply` | src/http/HttpDef.cpp:328-400 | in place: the fall-through switch computes the parser state of the specification |
| `HttpClients.HttpClient.Get` | src/http/HttpClient.cpp:14-19 | queues the request and, when connected, sends the front one |
| `HttpClients.HttpClient.SendRequest` | src/http/HttpClient.cpp:63-76 | moves the first waiting request behind the outstanding ones, and gives the connection its printed form, the terminating NUL and the body |
| `HttpClients.HttpClient.HandleConnection` | src/http/HttpClient.cpp:27-33 | once connected, the first waiting request is sent |
| `HttpClients.HttpClient.Destroy` | src/http/HttpClient.cpp:21-25 | the waiting requests are dropped and the connection is given up |
| `HttpClients.HttpClient.RequestWritten` | src/http/HttpClient.cpp:68-73 | sends the next waiting request, if there is one |
| `HttpClients.HttpClient.HandleReadEvent` | src/http/HttpClient.cpp:35-61 | in place: the loop on the read buffer computes the loop of the specification and keeps the order of requests |
| `HttpClients.AnswersFollowGets` | src/http/HttpClient.cpp:14-76 | in every state the k-th answered request is the k-th one given to `get` |
| `HttpClients.WireFollowsGets` | src/http/HttpClient.cpp:14-76 | in every state the connection was given the bytes of the requests given to `get` first, in that order and once each: of those that are answered or outstanding |
| `HttpServers.Pipelining` | src/http/HttpServer.cpp:28-96 | any number of complete requests with `Connection: keep-alive` are served in order, and the loop goes on with what follows as if it had come alone |
| `HttpServers.OneRequest` | src/http/HttpServer.cpp:45-91 | of one well-formed request: without its file the loop stops; with `Connection: keep-alive` it is served and the loop goes on; with any other value, or none, it is served and the loop ends |
| `HttpServers.TextIsServed` | src/http/HttpServer.cpp:28-96 | the same for any head as it may be written, HTTP/1.0 and bare newlines included; another method or version is a bad request and nothing is served |
| `HttpServers.OtherMethodIsBad` | src/http/HttpServer.cpp:42-49 | so is whatever else begins with another word than one of the four methods, complete or not |
| `HttpServers.BrokenLineAborts` | src/http/HttpServer.cpp:38-41 | a header line that is no field ends the loop by an exception or a read outside of the line |
| `HttpServers.SplitServedIff` | src/http/HttpServer.cpp:33-41 | for every well-formed request and every file system, a head in two read events gives what it gives in one iff it is cut directly behind the request line or a field |
| `HttpServers.ClientMeetsServer` | src/http/HttpClient.cpp:63-76 | of the bytes that `sendRequest` writes, the server serves the head and goes on with the body, a NUL and the body again; without a body it ends in a bad request |
| `HttpServers.ClosingServesAgain` | src/http/HttpServer.cpp:87-90 | after a request without keep-alive any further input serves the same request again |
| `HttpServers.HandleReadEvent` | src/http/HttpServer.cpp:28-96 | in place: the loop on the read buffer computes the loop of the specification |
| `ServerReplies.ResponsesInOrderIff` | src/http/HttpServer.cpp:75-86 | over every interleaving of served requests and written tasks, each response has its head directly in front of its file, in the order of the requests, iff no request is served while the head of another response is still to be written |
| `ServerReplies.PipelinedResponsesMix` | src/http/HttpServer.cpp:31-95 | of any number of keep-alive requests in one read event all heads are written before the first file, so the responses are in order iff there is at most one |
| `Tries.AttachShape` | src/util.h:360-366 | linking a new childless node keeps the linked structure of the tree |
| `Tries.Trie.Find` | src/util.h:334-351 | true iff the key has a value in the map the trie stands for |
| `Tries.Trie.Reach` | src/util.h:359-366 | the descent creates the missing nodes and changes no value |
| `Tries.Trie.Insert` | src/util.h:355-373 | sets this key and leaves every other key, its prefixes and extensions included, as it was |
| `Tries.Trie.At` | src/util.h:315-332 | creates a missing value, changes nothing else, and returns the place of the value |
| `Tries.Store` | src/util.h:315-332 | assigning through the reference that `operator[]` returns sets this key and no other |
| `Tries.RunAndRead` | src/util.h:313-377 | after every history of inserts, accesses and stores, `find` and `operator[]` answer for every key with the map that the history describes |
| `HandlerLists.EveryHandlerOnce` | src/Poller.cpp:34-56 | a pass runs every handler of the trees it reaches, exactly as often as it was enqueued |
| `HandlerLists.EnqueueOrder` | src/Poller.cpp:22-56 | it runs them in enqueue order: the initial list, then what its own handlers enqueue, in the order in which they run |
| `HandlerLists.OrderUnique` | src/Poller.cpp:34-56 | and this equation determines the order |
| `HandlerLists.RunsInThisPass` | src/Poller.cpp:34-40 | what a handler enqueues on its own list runs in the same pass |
| `HandlerLists.HeadShrinks` | src/Poller.cpp:34-56 | each handler run makes the forest that is left smaller, so the pass ends |
| `HandlerLists.Poller.RunHandlers` | src/Poller.cpp:34-56 | in place: iterating a list while handlers append to it runs the handlers of the specification and leaves that list empty and the others longer by what was enqueued |
| `HandlerLists.Poller.HandleEvent` | src/PollerEpoll.cpp:24-39 | after the callback of an event its nextTick handlers, old and new, run to the end |
| `HandlerLists.Poller.LoopOnce` | src/PollerEpoll.cpp:19-41 | one round: which handlers run, in which order, and what each list holds afterwards; per list, executed followed by pending is the enqueue order |

## Left out

- Timers.Step: a cancellation is by the owner of the timer; cancelling an id that another owner holds is a no-op in the code and no step here. `cancelAllTimer` is a sequence of cancellations.
- Timers.Fire: a clock that runs backwards, and the loop of macOS that sweeps without a timerfd, are not modelled.
- BinaryHeaps.BinaryHeap.constructor: a capacity of zero, inserting after `clear()` (which leaves a vector of length zero) and the 32-bit width of `size_` are not modelled; the initializer-list constructor is a sequence of inserts.
- Timestamps.ArithmeticExact: seconds and the 64-bit microsecond count are unbounded here; the 32-bit conversion in the constructor is modelled.
- EventQueues.Do: `empty()` reads the list without the lock; it is one atomic step here, as are `push_back` and `pop_front`. Failing writes to the eventfd (a counter near its maximum, a full pipe) are not modelled.
- EventLoopGroups.EventLoopGroup.WorkerThread: the handlers that a loop runs meanwhile are not modelled, the thread is followed for a finite schedule, `bf_` stays false once it is false, and an eventfd read takes all tokens (a pipe may keep some, which only helps). `robinLoop` and `robinLoop1` are index arithmetic.
- Buffers.Buffer.Prepend: a failing call is reported and not carried out, here and in the other operations of a buffer. `shrink`, `shrink_to_fit`, `setBuffer`, `copy` and the vector getters are left out; `off_t` is unbounded.
- Connections.Connection.HandleWritEvent: file contents do not change while they are queued; buffers handed to send are values, so two tasks sharing one buffer (which copying an `io_task` could produce) are excluded; a handler that enqueues more than the pass expects is covered, one that re-enters `handleWritEvent` is not.
- ReadPath.HandleReadEvent: what the read callback and the error handler do is not part of it; `sync_read` and `sync_send` are left out.
- RequestParsers.RequestParser.Parse: where the original reads outside its input the model stops as `Undefined`. Message bodies of requests are not parsed by the original. `bytes_` is unbounded. Characters are bytes 0 to 255 only in the lemmas about percent-encoding; NUL in a target is modelled as the end of the C string that it is.
- HttpReply.ReplyRoundTripIff: `tgmath`, `getMimeType` and `Reply::Error` are left out; `ParseBody` is unused in the original.
- HttpClients.HttpClient.HandleReadEvent: reply handlers do not call back into the client.
- HttpServers.HandleReadEvent: opening a file and reading its size is a predicate on the uri. The text of a response is left out; when it is written is in `ServerReplies`, for a connection that is not destroyed meanwhile.
- Tries.Trie.Find: only keys of printable characters, as the original throws outside of any handler for others (`find` could return before it meets such a character). Null keys, destruction and the copy of the stored value are left out.
- HandlerLists.Poller.LoopOnce: the poll, select and kqueue back ends differ from epoll only in how ready channels are found; a handler that throws, and handlers that enqueue for ever, are not modelled.
- Memory lifetime in general: shared and weak pointers appear only as the owned timers and the destroyed flag.
- Sockets, endpoints, name resolution, TCP and UDP servers and clients, logging, signals and the example programs: wrappers around system calls and wiring of callbacks.
