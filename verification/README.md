# FunctionCheck: a model of the profiler, and proofs about it

FunctionCheck is a profiler. An instrumented program sends a message whenever it enters or leaves a
function, through a FIFO in shared memory that a bakery lock guards when several writers share it. A
manager process reads the messages, keeps times per function and per thread, and counts the arcs of
the call graph in a hash table. A dump tool then removes duplicate arcs, builds the call graph and
reports its cycles.

This project models these parts in Dafny and proves what they are for. `dafny verify dfyconfig.toml`
checks all of it.

| part | files | form |
|---|---|---|
| bakery lock | `Bakery`, `BakeryRuns`, `BakeryThree`, `BakeryTrace`, `BakeryTwoReads`, `BakeryLastTwo`, `BakeryOverflow`, `Semaphore` | a transition system with one shared access a step, runs of it, and a class with the arrays of the C structure |
| shared FIFO | `Fifo`, `FifoRuns`, `FifoCalls`, `FifoLocked`, `FifoLockedEnd`, `FifoThreeWriters`, `SharedFifo` | the same for the control block; `FifoLocked` is the product of the FIFO with the lock |
| time accounting | `Accounting`, `Conservation`, `FunctionTable` | the effect of an event as a function, laws over all sequences of events, and classes updated in place |
| manager | `Manager`, `Arcs`, `Dispatch`, `Packets`, `Streams`, `Profiles`, `MainLoop` | one context, its arcs, all contexts, the messages as they are sent and read, what the profiles say of them, and the message loop as methods |
| hash table | `LHash`, `FreeList`, `HashTable`, `GraphTable` | heap nodes linked by `next` and `fnext`, an array of buckets, a class, and the arcs of a session played on it |
| call graph | `ArcMerge`, `CallGraph`, `Linking` | an array rewritten in place, and a depth-first search that tags heap nodes |
| sums over maps | `Maps` | lemmas |

Five results show where the code does less than one may expect, and exactly when it does what it
should.

* The doorway of the lock reads a ticket twice, to compare it and to copy it
  (src/fcmanager/fc_semaphore.c:65-66). When the ticket is cleared in between, the copy lowers a
  ticket. The number of processes decides whether this matters: `BakeryTwoReads.ExclusionExactly`
  says that the lock excludes in all runs with at most k processes if and only if k is at most three,
  whatever the size of the table. In the whole system, with the reader as one of the processes, it
  excludes if and only if there are at most two writers (`FifoThreeWriters.LockExcludesExactly`), in
  whatever slot the order of registration puts the reader. What the buffer needs is less: only the
  writers must keep out of each other's way. With four writers or more, and with three when the reader
  has the third or the fourth slot, they do not (`FifoThreeWriters.OneInsideExactly`). Whether three
  writers do when the reader has one of the first two slots is open; two of the three do
  (`FifoThreeWriters.LastWritersApart`). With one read instead of two, any number does.
* Messages about memory, dynamic libraries and the parent carry no time. The loop of the manager then
  takes the time of the last message of any sender that had one (src/fcmanager/main.c:175-182), and
  the final flush charges it. `Streams.ContextsAreOwn` says for which senders the functions of a
  context are nevertheless its own, `Streams.TimeOfOthers` how much is charged too much, and
  `Streams.OthersAreCharged` gives a stream of three messages.
* The compaction of the arc table moves the addresses of an arc but not its number
  (src/fcdump/fc_graph.c:523-529). `ArcMerge.CountsFollowExactly` says for which tables the counts
  stay with their arcs: those in which nothing that is dropped precedes something that is kept.
* A call to or from an address that is not in the function table gets a new node for each arc that it
  ends (src/fcdump/fc_graph.c:392-403), so a cycle through such an address is never reported.
  `Linking.AllCyclesCounted` says that every address on a cycle is counted if and only if the
  function table has all of them.
* The hash table allows 32 more blocks (src/fcmanager/fc_xlhash.c:142-148), but `max_rnodes` is an
  `int` and its double overflows after 24. `HashTable.Table.WhenExhausted` gives the one number of
  elements, 2147483583, at which a further one destroys the table; `HashTable.Table.Perform` says that
  nothing else does, and `HashTable.Overfill` that it happens.

## Model

| member | source | states |
|---|---|---|
| Bakery.InvStep | src/fcmanager/fc_semaphore.c:54-105 | any single shared read or write, by any process, that does not lower a ticket keeps the invariant: tickets, announcements, what each waiting process has seen of each other one, and the recursion counter |
| Bakery.OneHolder | src/fcmanager/fc_semaphore.c:70-92 | in a state with the invariant at most one process is past get and before its outermost put |
| Bakery.WritesItsOwn | src/fcmanager/fc_semaphore.c:47-106 | whatever the others do, an access writes at most one of the own announcement, the own ticket and the counter, and the counter only in a nested call |
| BakeryRuns.MutualExclusion | src/fcmanager/fc_semaphore.c:47-106 | in every interleaving of single reads and writes of any number of processes in which no doorway copy lowers a ticket and no ticket overflows, no two processes hold the lock at once |
| BakeryRuns.OneReadIsGentle | src/fcmanager/fc_semaphore.c:65-66 | when comparing and copying a ticket is one read, no copy lowers a ticket |
| BakeryRuns.OneReadExclusion | src/fcmanager/fc_semaphore.c:63-92 | mutual exclusion of the intended algorithm, with one read of each ticket in the doorway |
| BakeryThree.ThreeExclude | src/fcmanager/fc_semaphore.c:47-106 | with the two reads of the C text, no two processes ever hold the lock at once in any run in which at most three processes take steps, in a table of any size, although tickets are lowered |
| BakeryThree.ThreeAt | src/fcmanager/fc_semaphore.c:63-92 | what every step of three processes keeps: what each has seen of the others' tickets and announcements, with lowered tickets allowed |
| BakeryTwoReads.TwoReadsBreakExclusion | src/fcmanager/fc_semaphore.c:65-66 | with the two reads of the C text there is, for every table of four slots or more, a run of four processes after which two of them hold the lock, although few tickets are taken |
| BakeryTwoReads.WideRun | src/fcmanager/fc_semaphore.h:7-20 | every run is also one in a table with one more slot at any place, which nobody uses: the scans go on over it, and as many tickets are taken |
| BakeryTwoReads.ExclusionExactly | src/fcmanager/fc_semaphore.c:47-106 | the lock as written excludes in every run with at most k processes if and only if k is at most three |
| BakeryLastTwo.LastTwoExclude | src/fcmanager/fc_semaphore.c:63-92 | however many processes use the lock as written, the two with the largest slots never hold it at once |
| BakeryRuns.RecursiveLocking | src/fcmanager/fc_semaphore.c:54-61 | in every run in which no two processes hold the lock at once, whatever the reason: the counter is the holder's nesting depth minus one and zero when nobody holds the lock; put clears the ticket exactly when it is the outermost one; the value that a nested operation is about to write back is still current, so the counter's updates never race |
| BakeryRuns.FirstComeFirstServed | src/fcmanager/fc_semaphore.c:63-92 | in every run in which no doorway copy lowers a ticket and none overflows, a process that has left its doorway before another one starts to choose gets the lock before it |
| BakeryRuns.NextAdvances | src/fcmanager/fc_semaphore.c:70-92 | in any state that the C text can come to without overflow: with nobody holding the lock or in its doorway, the process with the smallest pair of ticket and slot passes its present test, stays the next one, and comes nearer to the lock |
| BakeryRuns.NextEnters | src/fcmanager/fc_semaphore.c:70-92 | in such a state, left alone, it has the lock after at most five steps for each slot: none of its remaining tests makes it wait |
| BakeryRuns.NextKept | src/fcmanager/fc_semaphore.c:70-92 | a step of another waiting process neither overtakes the next one nor adds to what it still has to test |
| BakeryRuns.NextEntersInAnyOrder | src/fcmanager/fc_semaphore.c:70-92 | under any schedule in which nobody begins to choose it gets the lock by at most five steps of its own for each slot, however often the others step in between |
| BakeryRuns.NoDeadlock | src/fcmanager/fc_semaphore.c:63-92 | in such a state, whenever somebody is inside get and nobody holds the lock, some process inside get can take a step nearer to the lock |
| BakeryRuns.NeverDeadlocked | src/fcmanager/fc_semaphore.c:63-92 | the same at every moment of every run of the C text, with its two reads, by any number of processes, in which no ticket overflows |
| BakeryRuns.TicketBound | src/fcmanager/fc_semaphore.c:63-68 | no ticket exceeds the number of tickets taken since the last state with all tickets zero and nobody choosing; this needs no assumption on the copies |
| BakeryRuns.FitsAt | src/fcmanager/fc_semaphore.c:67-67 | the 16-bit increment does not overflow within 32767 tickets of a state with all tickets zero and nobody choosing |
| BakeryOverflow.TicketsExactly | src/fcmanager/fc_semaphore.h:7-20 | with one read of each ticket, in a table of two slots or more, all runs with at most d tickets since the last state with all tickets zero and nobody choosing exclude if and only if d is at most 32767 |
| BakeryOverflow.FewTicketsExactly | src/fcmanager/fc_semaphore.c:63-68 | the same for the C text, with its two reads, and two or three processes |
| BakeryOverflow.OverflowBreaks | src/fcmanager/fc_semaphore.c:67-67 | two processes that take turns without ever leaving the lock quiet both hold it after 32768 tickets, even with one read of each |
| BakeryRuns.GentleAt | src/fcmanager/fc_semaphore.c:65-67 | so, when no copy lowers a ticket, each step of a spaced run is one that keeps the invariant |
| Semaphore.FCSemaphore.FindProcess | src/fcmanager/fc_semaphore.c:23-44 | a process keeps the slot it was given first, an unknown one gets the next free slot, and a full table is reported, with the tickets untouched |
| Semaphore.FCSemaphore.Access | src/fcmanager/fc_semaphore.c:47-106 | one access of get or put on the arrays has the effect that the transition system gives it |
| Semaphore.FCSemaphore.Locked | src/fcmanager/fc_semaphore.c:109-118 | the lock counts as locked exactly when some slot has a ticket |
| Semaphore.Interleave | src/fcmanager/fc_semaphore.c:47-106 | processes that take turns on one semaphore, one access at a time, go through a run of the transition system |
| Fifo.InvStep | src/fcmanager/fc_fifo.c:202-339 | with at most one writer inside the buffer, every single access keeps the invariant that ties indexes, counts, slots and reference count to the messages published and consumed |
| FifoRuns.SingleModeDelivers | src/fcmanager/fc_fifo.c:202-339 | one writer, one reader, no lock: in any interleaving the messages read are a prefix of those published, the count stays within the buffer, a slot handed to the writer is neither unread nor held by the reader, and the reader's slot keeps the oldest unread message |
| FifoRuns.SingleModeEnd | src/fcmanager/fc_fifo.c:213-251 | when the reader reports the end of the stream every message has been delivered, and nothing is published afterwards |
| FifoRuns.EndDelivers | src/fcmanager/fc_fifo.c:218-241 | the two tests of the count and the test of the reference count between them suffice for that |
| FifoRuns.SecondTestNeeded | src/fcmanager/fc_fifo.c:223-235 | the second test is needed: in every buffer of two entries or more, hence in all that are made, a run reaches it with a message waiting and nobody else attached |
| FifoRuns.NoDropWhileRead | src/fcmanager/fc_fifo.c:297-309 | a writer never drops a message once the manager has attached: it backs off and tries again |
| FifoCalls.GivesUpExactly | src/fcmanager/fc_fifo.c:288-309 | a writer at the test for a full buffer, left alone, ends its call without a slot if and only if the buffer is full and nobody but its own client is attached, that is no other client and not the manager |
| FifoCalls.WriteCall | src/fcmanager/fc_fifo.c:288-316 | left alone it gets the slot after the last message if there is room; gives up, with nothing published or recorded as sent and the control block as it was, in that case; and else is back at the test with the same message |
| FifoCalls.WholeWrite | src/fcmanager/fc_fifo.c:281-339 | a writer left alone with a buffer that is not full publishes exactly the message it has been given, and nothing else changes but the indexes and the count |
| FifoCalls.ReadCall | src/fcmanager/fc_fifo.c:202-278 | the reader, left alone: with a message unread it has read the oldest one and is back; with none it is back where it was if some client is attached, and at the end of the stream if none is |
| FifoCalls.EndIsReached | src/fcmanager/fc_fifo.c:213-251 | when no client is attached any more, the reader, wherever it is, reports the end of the stream after a number of its own steps that is given exactly, at most seven for each unread message and seven more, and every message has been delivered |
| FifoLocked.OneWorks | src/fcmanager/fc_fifo.c:32-42 | the bakery lock, held from reserve to done, keeps all other processes out of the buffer while it excludes |
| FifoLocked.LockKeepsOut | src/fcmanager/fc_fifo.c:32-42 | in every run in which the lock excludes, at most one writer is inside the buffer at a time |
| FifoLocked.OneReadLocks | src/fcmanager/fc_semaphore.c:63-68 | in the whole system, with the reader in any slot, the lock with one read of each ticket excludes for any number of writers |
| FifoLocked.TwoWritersLock | src/fcmanager/fc_semaphore.c:63-92 | in the whole system, with the reader in any slot, the lock as written, with two reads, excludes for up to two writers and the reader; `FifoThreeWriters.LockExcludesExactly` has the converse |
| FifoLocked.LockedModeDelivers | src/fcmanager/fc_fifo.c:202-339 | for every run of the system in which at most one writer is inside the buffer at a time, whatever the reason, and wherever the reader's slot is: the messages come out in the order of publication, each once, and each writer's messages in its own order |
| FifoLocked.LockedModeEnd | src/fcmanager/fc_fifo.c:213-251 | for every such run: the end of the stream is reported only when every message has been delivered, and nothing is published afterwards |
| FifoLockedEnd.EndIsReached | src/fcmanager/fc_fifo.c:32-42 | the same with the lock of the C text, from every state in which the invariants hold, no client is attached, and the ticket that the reader may be choosing fits a short: from wherever it is in the lock, the reader comes to the end in a bounded number of its own steps, and every message has been delivered |
| FifoLockedEnd.RunEndIsReached | src/fcmanager/fc_semaphore.c:63-106 | the same at every moment of a run in which one writer at a time is inside and no ticket overflows, with the bound in the number of unread messages and of slots |
| FifoThreeWriters.LockRunIsPart | src/fcmanager/fc_fifo.c:32-42 | every run of the lock, by any writers and the reader in any slot, in which nobody nests is the lock's part of a run of the whole system |
| FifoThreeWriters.ThreeWritersBreak | src/fcmanager/fc_semaphore.c:65-66 | with the lock as written, for any number of writers from three on, any slot of the reader and a buffer of any size, a run of the system in which few tickets are taken ends with two processes that hold the lock |
| FifoThreeWriters.WritersMeet | src/fcmanager/fc_fifo.c:281-339 | unless there are three writers and the reader has one of the two smallest slots, such a run ends with two writers inside the buffer |
| FifoThreeWriters.WritersShareSlot | src/fcmanager/fc_fifo.c:311-316 | and in a large enough buffer with the same slot reserved by both for different messages |
| FifoThreeWriters.LockExcludesExactly | src/fcmanager/fc_semaphore.c:47-106 | for every size of the buffer and every slot of the reader, the lock as written excludes in every run of the system with w writers if and only if w is at most two |
| FifoThreeWriters.OneInsideExactly | src/fcmanager/fc_fifo.c:281-339 | for every size and every slot of the reader, but for three writers with the reader in one of the two smallest slots: at most one writer is ever between reserving a slot and giving the lock back, in every run with w writers, if and only if w is at most two |
| FifoThreeWriters.OwnSlotsExactly | src/fcmanager/fc_fifo.c:311-316 | with the same exception: no two writers are ever given the same slot, so that one message would take the place of another, in every run with w writers, if and only if w is at most two |
| FifoThreeWriters.LastWritersApart | src/fcmanager/fc_fifo.c:281-339 | with the lock as written and any number of writers, the two with the largest slots, when they are larger than that of the reader, are never inside the buffer at once |
| FifoThreeWriters.TwoWritersServed | src/fcmanager/fc_fifo.c:202-339 | with the lock as written, up to two writers and the reader in any slot, in every run in which no ticket overflows: delivery in order, one writer inside at a time, and the end of the stream only when all is delivered |
| FifoThreeWriters.OneReadServes | src/fcmanager/fc_fifo.c:202-339 | the same for any number of writers with one read of each ticket |
| SharedFifo.FCFifo.constructor | src/fcmanager/fc_fifo.c:124-167 | a new buffer is empty, has its creator attached, and is never smaller than five entries |
| SharedFifo.FCFifo.Close | src/fcmanager/fc_fifo.c:172-196 | a count of zero stays zero, and the last one out is told so |
| SharedFifo.FCFifo.WriterAccess | src/fcmanager/fc_fifo.c:281-339 | one access of a writer, on the control block in place, has the effect that the transition system gives it |
| SharedFifo.FCFifo.ReaderAccess | src/fcmanager/fc_fifo.c:202-278 | the same for the reader, and what it reads |
| SharedFifo.Interleave | src/fcmanager/fc_fifo.c:202-339 | one writer and one reader that take turns on one buffer read exactly the messages that the transition system delivers |
| Accounting.FaithfulAt | src/fcmanager/fc_functions.c:48-205 | after any timed events, direct and mutual recursion and rejected exits included: recursive_state is the number of frames of the function, calls the number of enters, local time plus the time to be added the time on top of the stack, and total time plus the present stay the time on the stack |
| Accounting.ExtremesAt | src/fcmanager/fc_functions.c:161-198 | max_time and min_time are the longest and the shortest completed activation, nested ones included; max_ltime and min_ltime the largest and the smallest time on top of the stack, from the beginning of a stay on the stack to the end of an activation in it; all of them within the sums |
| Accounting.LocalIsSelfBefore | src/fcmanager/fc_functions.c:161-180 | while a function is on the stack its local time is its time on top before that stay, and otherwise all of it |
| Accounting.BoundedAt | src/fcmanager/fc_functions.c:157-198 | the time of a function on top of the stack is at most its time on the stack, and that at most the clock |
| Accounting.StackSame | src/fcmanager/fc_functions.c:115-140 | the call stack is the one that the accepted events alone define: an exit that does not match the top changes nothing |
| Accounting.RecordsAreOfCalls | src/fcmanager/fc_functions.c:55-78 | after any events, whatever their times, the table has a record for exactly the functions that have been entered, with the number of calls; not for their call sites |
| Accounting.LastTimeIsResumed | src/fcmanager/fc_functions.c:95-101 | last_time is the time of the event that last made the function the one on top of the stack |
| Accounting.TempIsLatestStay | src/fcmanager/fc_functions.c:81-95 | when the times of the events do not decrease, temp_ltime is the time that the function was on top in its present stay on the stack, or in its latest one |
| Conservation.TimeIsConserved | src/fcmanager/fc_functions.c:81-180 | the local times of all functions, with what is still to be added for those on the stack, sum up to the time during which the stack was not empty |
| Conservation.OffStack | src/fcmanager/fc_functions.c:157-204 | for a function off the stack: local time is its time on top, total time its time on the stack, local at most total, and the extremes are the exact ones, with min at most max at most total |
| Conservation.NoOverflow | src/fcmanager/fc_functions.c:157-198 | no 64-bit sum overflows while the clock fits in 64 bits |
| FunctionTable.FCFunction.Charge | src/fcmanager/fc_functions.c:95-95 | the update in place is the one that the accounting is proved about |
| FunctionTable.FCFunction.Leave | src/fcmanager/fc_functions.c:157-201 | the same for an exit: sums, extremes and recursion state |
| FunctionTable.FCStack.Enter | src/fcmanager/fc_functions.c:48-104 | entering a function, with the record objects shared between table and stack, does to the whole context what the model of the event says |
| FunctionTable.FCStack.Exit | src/fcmanager/fc_functions.c:107-205 | the same for leaving it, and an exit is accepted exactly when it matches the top of the stack |
| Manager.HandleIsRun | src/fcmanager/main.c:189-210 | the enter and exit messages of a context reach the accounting in order, with the time that the loop has for them, and no others do |
| Manager.FlushIsRun | src/fcmanager/main.c:249-268 | the final flush is a sequence of matching exits at the last time of the context |
| Manager.FlushDropsUnnamed | src/fcmanager/main.c:258-265 | a frame without a function is dropped in the flush, and nothing exits |
| Manager.LastIsLatest | src/fcmanager/main.c:175-182 | among messages that the loop has read at non-decreasing values of its time variable, the last time of the context is not before any of them |
| Manager.FlushedAccounts | src/fcmanager/main.c:109-268 | after messages read at such times and the flush the stack is empty and the local times of all functions sum up to the time during which something was on the stack |
| Arcs.KeysCollide | src/fcmanager/fc_graph.c:50-52 | two arcs share a key exactly when their addresses agree in the low 32 bits |
| Arcs.ArcsCountReturns | src/fcmanager/main.c:199-204 | before the flush the arcs with keys of any set count the exit messages whose call site is not NULL and whose key is in it, accepted or not, for addresses of any width |
| Arcs.FlushCountsFrames | src/fcmanager/main.c:255-265 | the flush adds the frames that are left, in the same way |
| Arcs.ArcsAgreeWithCalls | src/fcmanager/main.c:189-268 | after the flush the arcs with keys of any set count exactly the enter messages with such keys, if exits match; only calls without a call site and those with the key 0 are left out |
| Arcs.ArcCountsSimilar | src/fcmanager/fc_graph.c:50-66 | so the arc of a call site and a function counts the calls whose addresses agree with theirs in the low 32 bits |
| Arcs.ArcsSumToCalls | src/fcmanager/main.c:189-268 | the counts of the arcs into a function sum up to its calls field, less its calls without a call site or with the key 0, plus the calls of other functions that agree with it in the low 32 bits |
| Arcs.AloneHasAll | src/fcmanager/fc_graph.c:46-52 | both corrections are nothing when all calls of the function have a call site and no other function agrees with it |
| Dispatch.ContextsAreIsolated | src/fcmanager/main.c:133-189 | however the letters of several senders are mixed, each context is what those of its sender, with the times that the loop has for them, make of it, and there is one for each sender heard of |
| Dispatch.ContextsAccount | src/fcmanager/main.c:109-268 | at the end the times and the arc counts, over any set of keys, of every context are those of the letters of its sender |
| Dispatch.ContextsInOrder | src/fcmanager/fc_context.c:113-130 | the contexts are listed in the order in which their senders were first heard of |
| Packets.OwnBeforeFlush | src/fcmanager/main.c:158-243 | before the flush the functions, the stack and the arcs of a context are what the messages of its sender make of them without those of others, although untimed messages get the time of others |
| Packets.FlushExactly | src/fcmanager/main.c:253-265 | the last time of a context matters for its flushed functions exactly when some function is still to be left, and never for its arcs |
| Packets.OwnAfterFlushExactly | src/fcmanager/main.c:175-182 | after the flush the functions are those of the sender's messages alone if and only if none was on the stack, or the sender's last message that sets the time is timed, or the time it inherits is the sender's own; the arcs always are |
| Packets.FirstTimeUnused | src/fcmanager/main.c:40-40 | the value of the time variable before the loop, which is not set, never reaches a flushed context |
| Packets.TimeIsLast | src/fcmanager/fc_com_manager.c:99-197 | the time variable is the time of the last message that carries one, whatever its type, or what it was before the loop |
| Streams.ContextsAreOwn | src/fcmanager/main.c:102-268 | the same for every context of the manager after every stream of messages of any senders |
| Streams.ContextsAccount | src/fcmanager/main.c:102-268 | when the times of the stream do not decrease over all senders: at the end the local times of every context sum up to the time that its sender was inside a function, until the last time of the context, and its arcs count the calls |
| Streams.TimeOfOthers | src/fcmanager/main.c:175-182 | in such a stream what a context is charged with because of others is the difference of the two last times if something is on the stack, never negative, and never beyond the last time of the stream |
| Streams.OthersAreCharged | src/fcmanager/fc_com_manager.c:111-191 | a stream of three messages in which a function gets 90 because of another process, and 0 on its own |
| Profiles.ContextsTell | src/fcmanager/main.c:102-268 | for every stream of messages of any senders at any times, and every context at the end: the functions in its table are exactly those that its sender has called, with the number of those calls; its arcs, over any set of keys, count the EXIT messages of the sender with such keys and its calls that have not returned, so all its calls if each EXIT names the function and the call site on top of the stack; and an arc is in the table only if it counts something |
| Profiles.FlushedIsReported | src/fcmanager/main.c:133-265 | the records of the flushed context are those of the enters and exits that its sender reports, at the times that it reports, followed by the exits of the calls that it was inside of, at the last time of the context |
| Profiles.TimesAreReported | src/fcmanager/main.c:175-265 | in a stream whose times do not decrease, the local times of a profile sum up to the time that the sender reports to have been inside some function, and, if it still is, the time until the last time of the context |
| Profiles.ContextsLast | src/fcmanager/main.c:164-182 | the last time of each context is the time variable at the last message of its sender that is no QUIT, or the low word of the time at which the context was made |
| Profiles.ContextsAreListed | src/fcmanager/main.c:102-157 | there is one context for the first process and for each process or thread that has sent a message or whose creation has been reported, in the order in which they were heard of |
| MainLoop.FCContext.Handle | src/fcmanager/main.c:158-243 | one message, with the value of the time variable, changes a context in place as the model says |
| MainLoop.FCContext.Flush | src/fcmanager/main.c:253-265 | the flush loop ends, with the state that the model of the flush gives |
| MainLoop.FCManager.SetContext | src/fcmanager/fc_context.c:247-282 | the context of the sender becomes current, is found if it exists and made if it does not, and the others stay |
| MainLoop.FCManager.Deliver | src/fcmanager/main.c:133-243 | one round of the loop, after the message has been read and the time variable set, does to the list of contexts what the model says |
| MainLoop.Manage | src/fcmanager/main.c:102-268 | the context of the first process, the whole loop with its time variable carried from message to message, and the flush of all contexts refine the model: the contexts are those listed by `Profiles.ContextsAreListed`, each tells of its sender what `Profiles.ContextsTell` says, and when times do not decrease it accounts for its sender |
| LHash.FindNode | src/fcmanager/fc_xlhash.c:263-286 | the search finds the node of a key exactly when there is one |
| LHash.AddNode | src/fcmanager/fc_xlhash.c:176-198 | a node goes to the end of the bucket key % size, and every key stays in its bucket, once |
| LHash.Unlink | src/fcmanager/fc_xlhash.c:428-455 | the node of a key leaves its bucket and the others keep their order |
| LHash.MoveHead | src/fcmanager/fc_xlhash.c:219-233 | one step of the rehashing moves the first node of a bucket, with all other nodes in the old or the new array, and none in both |
| LHash.Rehash | src/fcmanager/fc_xlhash.c:201-242 | rehashing to any size leaves the same nodes, each once, in the bucket that the new size gives it |
| LHash.LengthIsCount | src/fcmanager/fc_xlhash.c:339-339 | the buckets hold as many nodes as there are keys |
| FreeList.NewBlock | src/fcmanager/fc_xlhash.c:153-164 | a new block is one list of fresh nodes |
| FreeList.SpareTail | src/fcmanager/fc_xlhash.c:131-139 | the first free node is in no bucket, and the list goes on with the others |
| HashTable.ClosestPrime | src/fcmanager/fc_xlhash.c:41-50 | the first number of the list above the given one, or the last of all |
| HashTable.GrowthIsLight | src/fcmanager/fc_xlhash.c:341-345 | growing once is enough to get below 85 per cent, unless the last prime is reached |
| HashTable.SizedIs | src/fcmanager/fc_xlhash.c:339-345 | that size is the first number of the list of which this number is at most 85 per cent, or the last one |
| HashTable.Table.constructor | src/fcmanager/fc_xlhash.c:55-103 | a new table is empty, with 109 buckets and 64 free nodes |
| HashTable.Table.GetANode | src/fcmanager/fc_xlhash.c:126-170 | a node is handed out that no bucket holds; the free list is not empty afterwards; the table is destroyed exactly when the last node is needed and no block, or none of a size that fits an int, can be added |
| HashTable.Table.IncreaseSize | src/fcmanager/fc_xlhash.c:201-242 | the table grows to the next prime, or keeps its size at the last one, with the same elements |
| HashTable.Table.Insert | src/fcmanager/fc_xlhash.c:289-346 | the table as a map gets the new element or the new data; key 0 changes nothing; the table is destroyed exactly when a new key needs the last node |
| HashTable.Table.Lookup | src/fcmanager/fc_xlhash.c:349-376 | a key is found exactly when it is in the map, with its data |
| HashTable.Table.LookupModify | src/fcmanager/fc_xlhash.c:384-414 | the node of the key, or NULL |
| HashTable.Table.Modify | src/fcmanager/fc_xlhash.c:384-414 | writing through the pointers changes the data of that key in the map, and nothing else |
| HashTable.Table.Remove | src/fcmanager/fc_xlhash.c:417-459 | the key leaves the map, and no node is lost |
| HashTable.Table.Perform | src/fcmanager/fc_xlhash.c:263-459 | for any sequence of operations the table answers as a plain map does, and ends with its contents, unless it is destroyed, which it is if and only if a new key is inserted when the map has 2^31 - 65 elements; its size is that for the largest number of elements that there have been |
| HashTable.NewKeysDestroyExactly | src/fcmanager/fc_xlhash.c:142-157 | the insertion of distinct keys other than 0 destroys a new table if and only if there are more than 2^31 - 65 of them |
| HashTable.Overfill | src/fcmanager/fc_xlhash.c:142-157 | 2^31 - 64 insertions destroy a new table |
| HashTable.Table.SizeIsCount | src/fcmanager/fc_xlhash.c:485-490 | nb is the number of elements of the map |
| HashTable.Table.NodesAreConserved | src/fcmanager/fc_xlhash.c:126-170 | every allocated node is in one chain or in the free list, nb plus the length of the free list is 2 * max_rnodes - 64, and the free list is not empty |
| HashTable.Table.WhenExhausted | src/fcmanager/fc_xlhash.c:142-151 | the table can be destroyed at exactly one number of elements, that of 64 initial nodes and 24 blocks, less one: 2^31 - 65 |
| HashTable.Table.FieldsFit | src/fcmanager/fc_xlhash.h:56-66 | nb_add_rnodes stays at most 24, so that its limit of 32 is never reached, and max_rnodes, nb and size never overflow |
| HashTable.Table.AddArc | src/fcmanager/fc_graph.c:37-66 | on the hash table, counting an arc is what the model of the manager says, and it fails exactly for a new arc at that size |
| GraphTable.SessionAdds | src/fcmanager/main.c:199-265 | the arcs of a context are the result of its calls of fc_graph_add_single, one for each exit message and then one for each frame of the flush |
| GraphTable.DestroysExactly | src/fcmanager/fc_graph.c:37-66 | a sequence of calls of fc_graph_add destroys a new table if and only if it has more than 2^31 - 65 different arcs |
| GraphTable.Graph | src/fcmanager/fc_graph.c:28-73 | a new hash table, given these calls, ends with the arcs of the context, and when exits match, with the numbers of calls; it is destroyed if and only if the context has more than 2^31 - 65 arcs |
| ArcMerge.MergeTreats | src/fcdump/fc_graph.c:507-520 | after the first pass an entry keeps its pair exactly when it is the last one of it, and its number is the sum of the pair's numbers up to there |
| ArcMerge.OneSurvivor | src/fcdump/fc_graph.c:507-531 | every pair with a caller survives exactly once, at its last entry, with the sum of all its counts at the end of the first pass |
| ArcMerge.TotalsConserve | src/fcdump/fc_graph.c:514-515 | the sums of the pairs add up to the sum of the table: no call is lost or counted twice |
| ArcMerge.RemoveDuplicates | src/fcdump/fc_graph.c:504-531 | after both passes the table begins with the addresses of exactly the survivors, in order, while each number is still where the first pass left it |
| ArcMerge.CountsFollowExactly | src/fcdump/fc_graph.c:523-529 | the counts follow their pairs, whatever positive numbers they are, if and only if nothing that is dropped precedes something that is kept |
| ArcMerge.CountsMisplaced | src/fcdump/fc_graph.c:523-529 | a table of three entries in which both counts come out wrong |
| CallGraph.Search | src/fcdump/fc_graph.c:292-327 | the tagged search ends; a positive result is the length of a cycle of distinct nodes back to the start, which goes from each node to the first successor from which the start can be reached without coming back to the path so far; 0 means that nothing it has tagged leads back |
| CallGraph.GetCycle | src/fcdump/fc_graph.c:330-340 | positive exactly when the node reaches itself; then the result is the length of the leftmost simple cycle from it, and last the node that calls it; 1 exactly when the node is its own successor and no earlier successor leads back |
| CallGraph.LeftmostIsUnique | src/fcdump/fc_graph.c:312-325 | there is only one such cycle: the graph, with the order of the successors, determines it |
| CallGraph.ReportIsDetermined | src/fcdump/fc_graph.c:359-374 | so it determines the length and the last node that are reported of a node |
| CallGraph.ComputeCycles | src/fcdump/fc_graph.c:344-377 | for each registered node on some cycle there is exactly one report, in the order of the list, with the length and the last node of the leftmost simple cycle from it, and the result is the number of reports |
| Linking.SearchFunction | src/fcdump/fc_graph.c:381-404 | the first function of the table with the address, or a new one at each call |
| Linking.BuildGraph | src/fcdump/fc_graph.c:533-570 | each function at an end of an arc has one node, the nodes are registered in the order of the first arcs that they end, the successors of a node are the ends of its arcs in the order of the table, and every link leads to a registered node |
| Linking.CyclesAgree | src/fcdump/fc_graph.c:533-570 | a node is on a cycle exactly when its function is in the table and its address on a cycle of arcs through functions of the table |
| Linking.CountCycles | src/fcdump/fc_graph.c:344-377 | building the graph from an arc table and computing its cycles reports on the nodes of the compacted table, and counts exactly the addresses on a cycle of arcs through known functions, whatever duplicates the table had; these are all addresses on cycles if and only if the function table has them all |
| Linking.AllCyclesCounted | src/fcdump/fc_graph.c:392-403 | no more addresses are counted than there are on cycles, and as many if and only if each of those is in the function table |
| Linking.UnknownHidesCycle | src/fcdump/fc_graph.c:392-403 | a two-arc table whose cycle through an unknown address is not found |

## Left out

- BakeryRuns.MutualExclusion: takes the runs in which no doorway copy lowers a ticket; a run may lower one and yet keep the lock exclusive. `BakeryTwoReads.ExclusionExactly` gives the number of processes for which all runs of the C text do.
- BakeryThree.ThreeExclude: assumes, like all results on exclusion, that a ticket never wraps, which holds within 32767 tickets of a state with all tickets zero and nobody choosing (`BakeryRuns.FitsAt`).
- Bakery: an idle process ignores a put. In C a put by a process that holds nothing would count down the holder's counter or clear its own ticket (src/fcmanager/fc_semaphore.c:96-106); no caller does it.
- BakeryRuns.NoDeadlock: says that some process can always advance, not that a fair scheduler lets every process in; waiting is a step that changes nothing, and clocks and sleeps are not modelled.
- BakeryRuns.FirstComeFirstServed: takes the runs in which no doorway copy lowers a ticket. Whether the two reads of the C text keep the order for two or three processes is not stated.
- FifoLocked.LockedModeDelivers: takes the runs in which at most one writer is inside the buffer; `FifoThreeWriters.TwoWritersServed` and `FifoThreeWriters.OneReadServes` take no such hypothesis.
- FifoThreeWriters.OneInsideExactly: three writers with the reader in slot 0 or 1 are open. Slots go by first registration (src/fcmanager/fc_semaphore.c:23-44), and the profiled process registers before it starts the manager, so this is a usual case. The lock as such does not exclude there (`FifoThreeWriters.ThreeWritersBreak`), but the known failing run has the reader as one of the two holders, which harms nothing. Missing is that of four processes only the two with the smallest slots can hold the lock at once; `BakeryLastTwo.LastTwoExclude` says so of one of the other five pairs.
- FifoThreeWriters.OwnSlotsExactly: open in the same case.
- FifoLocked.LockedModeEnd: the lock is modelled with one slot for each writer and one for the reader. What fc_semaphore_find_process does when two processes register at once, which its own comment calls unprotected, is not.
- FifoRuns.SingleModeEnd: attaching and detaching are one step each, although the C text increments and decrements a shared counter without a lock; a client detaches only between its messages.
- Arcs.ArcsAgreeWithCalls: needs matching exits; without them `Arcs.ArcsAfterFlush` still says what is counted.
- MainLoop.Manage: the context objects keep their arcs in a map. `GraphTable.Graph` shows that a hash table of each context ends with the same arcs; the two are not one object.
- Manager.FlushedAccounts: needs non-decreasing times. The wrap-around padding of src/fcmanager/main.c:175-182 compares a time with itself and never applies.
- Packets: a message with the id 0, whose content is not read (src/fcmanager/fc_com_manager.c:84-88), is not modelled; no process or thread has that id.
- Accounting.FaithfulAt: `calls` and `recursive_state` are unbounded in the model, `int` in C; times are 64-bit with wrap-around.
- HashTable.Table.Insert: the load is compared in exact arithmetic, in C in floating point; the counts of `AddArc` do not wrap. After its destruction the C text goes on with a NULL node; the model stops there. The counter nb_rnodes, which is written and never read, is not modelled.
- HashTable.Table.IncreaseSize: the flag `frozen`, which is set only inside this function, and the old bucket array, which is never freed, are not modelled; allocation succeeds.
- Linking.BuildGraph: models the links to callees, not the mirrored list of callers and the numbers beside the links, which only the printing uses.
- FORK mode: frames of unknown functions get their symbol at their exit, and inherited attachments are not counted. The model has single and thread modes.
- The function table as a data structure: it is a map from symbol to record, because the search of src/fcmanager/fc_hash.c:107-113 does not wrap as the insertion does. The growth of the stack is not modelled.
- The twin of the hash table with pointer keys (src/fcmanager/fc_xhash.c), the iteration over all elements, and the leak tracker.
- The propagation of -only and -not (src/fcdump/fc_graph.c:410-486), which the command line never turns on.
- Files, command lines, environment, symbol lookup, demangling, shared-memory calls, process creation, allocation hooks and dynamic loading.
