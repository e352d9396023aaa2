# A verified model of the RT-Thread 1.2 kernel

This project models the parts of the kernel and its application layer in which state changes step by step and
many functions must agree, and proves what they promise.

- **finsh**: the shell's compiler from syntax trees to byte code and its stack machine. Compiling a well-typed
  line and running the bytes does what evaluating the line means.
- **Heaps**: the memheap ring with its free list, the small-memory heap with its offset links and lowest-free
  hint, and the page allocator and the slab zones above it. Each keeps its structure and its counters over every
  operation.
- **Timers**: the skip list over wrapping 32-bit ticks refines one list sorted by unbounded deadline. Over whole
  runs, a timer that is not stopped fires at the very tick of its deadline: a one-shot timer there only, a periodic
  one there and at every period after.
- **IPC**: semaphore, mutex with priority inheritance, event, mailbox and message queue as transition systems.
  One step is one stretch of code with interrupts disabled; threads, interrupts and timeouts step in any order.
  What every call comes to is proved against a plain account of the calls alone: a bounded queue of mails, a
  sequence of messages, units given and released, holds taken and released, flags set and cleared.
- **Scheduler**: ready rings, wait lists and the one- or two-level bitmap over one set of list nodes.
- **Reader/writer lock** on sticky semaphores, and the **AT-command** state machine.

Code that updates memory in place is a class with arrays and fields; each of its methods is proved to do what a
function on values says (`View() == Step(old(View()), e)`), and the properties are proved of those functions:
what every step keeps, and then, by induction, what holds in every state of every run. Files ending in `Spec`
hold the functions and their lemmas; the file without the suffix holds the class.

Conventions. Threads, timers and list nodes are numbered; number 0 is the head of a list. A call that waits is
split where the thread sleeps: the thread's phase says whether it is queued, woken but not yet run, or back.
Ticks are unbounded in the specification and modulo 2^32 in the class.

What the code requires of its callers, and the model requires too: no thread that waits in an IPC object is
resumed or deleted from outside; the tick is not set back; `hold` stays below 255 and a semaphore's value below
65535; a timer's time is below RT_TICK_MAX/2, and a periodic timer's and that of a timer which a timeout function
starts is positive; a timeout function does not stop its own timer and leave it started (`TimerSpec.SettlesIff`
shows that this is what goes wrong); sizes given to a heap do not overflow 32 bits when they are aligned; the small
heap has room for at least one smallest block, since its search bound would wrap below zero otherwise.

Where the code does not meet a property, the model keeps the code, shows an input and proves exactly when it does:
`FinshSemantics.RightIff` with `SumOfCallIsNotAdded` and `NotOfCall`, `TimerSpec.SettlesIff` with `OwnRestart`,
`MutexSpec.UrgentIff` with `FifoInversion`, `SmallHeapSpec.ChosenRight` with `SmallHeap.WholeHeapRefused`,
`SmallHeapSpec.ShrunkLowest` with `SmallHeap.HoleBelowHint`, `Memheap.RefusedFit` with `WholePoolRefused`,
`RwLockSpec.StrandsExactly` with `StrandedReader`, and `AtParse.OverrunExactly` with `SeventeenOverrun`.

## Model

| member | source | states |
|---|---|---|
| `FinshSemantics.CompileAndRun` | components/finsh/finsh_compiler.c:903-937 | for every well-typed line whose code fits the text segment: compile it, run the bytes, and the machine ends with exactly the evaluated value on its stack and the memory evaluation gives; it fails exactly if evaluation does |
| `FinshSemantics.CompileAndRunTarget` | components/finsh/finsh_compiler.c:903-937 | on the 32-bit machine the compiled line gives what evaluating it gives with any arithmetic and memory that mean what the source's operators mean: truncating division, remainder of the dividend's sign, products and sums modulo 2^32, bit by bit operators, shifts as products and floor divisions by powers of two, words as four bytes |
| `FinshSemantics.InvokePasses` | components/finsh/finsh_ops.c:444-569 | a call passes the values of its arguments unchanged and in order, and a single 0 if it has none |
| `FinshArith.ArithMeans` | components/finsh/finsh_ops.c:42-291 | every two-operand operator, for all words: + - * agree with the integers modulo 2^32; / gives a quotient q and % a remainder r with a = q * b + r, r smaller than b in size and zero or of the sign of a, both read as signed, and neither for b = 0; & | ^ act on each bit; << is the product with 2^b and >> the floor of the signed quotient by it, for b below 32 |
| `FinshArith.MeansUnique` | components/finsh/finsh_ops.c:42-291 | these meanings determine the result |
| `FinshArith.FlipMeans` | components/finsh/finsh_ops.c:245-250 | bit k of ~a is the opposite of bit k of a, for every k |
| `FinshArith.LoadRight` | components/finsh/finsh_ops.c:375-397 | a load reads the four bytes at the address, the least significant first |
| `FinshArith.StoreRight` | components/finsh/finsh_ops.c:428-435 | a store writes exactly those four bytes |
| `FinshSemantics.ExecExpr` | components/finsh/finsh_compiler.c:43-757 | running the code of any well-typed expression, from any stack and memory, pushes one slot holding its value and changes memory as evaluation does |
| `FinshSemantics.ExecArgs` | components/finsh/finsh_compiler.c:533-556 | the code of an argument list pushes the argument values in source order |
| `FinshSemantics.ExecLine` | components/finsh/finsh_compiler.c:915-932 | the code of a `;` sequence does its statements in order, dropping the value of all but the last |
| `FinshSemantics.TreeCode` | components/finsh/finsh_compiler.c:43-757 | the code the compiler emits for the syntax tree of an expression is the code of the expression, in value and in address position |
| `FinshSemantics.LineCode` | components/finsh/finsh_compiler.c:915-932 | the code of a tree of statements is the code of the line |
| `FinshSemantics.TableBoundsStack` | components/finsh/finsh.h:26-32 | a line whose nodes fit the node table never overflows the operand stack |
| `FinshSemantics.TargetStep` | components/finsh/finsh_compiler.c:467-520 | on 32-bit memory ++ and -- add or subtract one modulo 2^32, prefix giving the new and postfix the old value |
| `FinshSemantics.OneSlotIffTyped` | components/finsh/finsh_compiler.c:791-795 | code leaves exactly one slot if and only if no two-operand operator takes its type from a call, whatever the machine and the stack |
| `FinshSemantics.RightIff` | components/finsh/finsh_compiler.c:791-795 | for every expression: code that leaves one slot leaves the value of the expression without the one-operand operators that take their type from a call, so what runs to its end is right if and only if no two-operand operator is dropped and leaving out the others makes no difference to the value |
| `FinshSemantics.EraseNothing` | components/finsh/finsh_compiler.c:791-795 | a well-typed expression loses no operator |
| `FinshSemantics.NotOfCall` | components/finsh/finsh_compiler.c:791-795 | ~f() leaves one slot with the value of f(), which is wrong on every machine |
| `FinshSemantics.DerefOfCall` | components/finsh/finsh_compiler.c:791-795 | *f() leaves the value of f(), right only where that word holds its own address |
| `FinshSemantics.NotNotOfCall` | components/finsh/finsh_compiler.c:791-795 | ~~f() is right although it is not well-typed |
| `FinshSemantics.SumOfCallIsNotAdded` | components/finsh/finsh_compiler.c:791-795 | f() + 1 leaves two slots: the addition is never emitted |
| `FinshSemantics.NetHeight` | components/finsh/finsh_ops.c:42-45 | the height of the stack after any code is fixed by the code |
| `FinshMachine.DecodeEncode` | components/finsh/finsh_ops.c:317-325 | decoding the bytes of an instruction gives it back, with its length |
| `FinshMachine.OperandRoundTrip` | components/finsh/finsh.h:44-55 | a 32-bit operand written byte by byte is read back unchanged |
| `FinshMachine.LoadAfterStore` | components/finsh/finsh_ops.c:428-435 | a stored word is loaded back, also across the end of the address space |
| `FinshMachine.ZeroTailIsNoop` | components/finsh/finsh_vm.c:63-71 | the zero tail of the text segment changes nothing |
| `FinshMachine.RunEncoded` | components/finsh/finsh_vm.c:63-71 | running encoded instructions followed by zeros is executing them one by one |
| `FinshMachine.ExecAppend` | components/finsh/finsh_vm.c:63-71 | executing two pieces of code is executing the second from where the first ends |
| `FinshMachine.Vm.OpBin` | components/finsh/finsh_ops.c:42-45 | a binary handler replaces the two top slots by the result of the operator on them, whose meaning `FinshArith.ArithMeans` gives, or fails |
| `FinshMachine.Vm.OpCall` | components/finsh/finsh_ops.c:444-569 | a call pops its arguments in order and the function, and pushes the result |
| `FinshMachine.Vm.Dispatch` | components/finsh/finsh_ops.c:297-443 | each handler does to stack and memory what its instruction means |
| `FinshMachine.Vm.Run` | components/finsh/finsh_vm.c:47-72 | the fetch loop ends for every text segment and does what decoding the bytes in order means |
| `FinshCompiler.Compiler.TypeCheck` | components/finsh/finsh_compiler.c:759-901 | sets the address flags and types of exactly the nodes of the tree: a node has the type of its first child, an identifier its own |
| `FinshCompiler.Compiler.Select` | components/finsh/finsh_compiler.c:43-757 | the instructions chosen for one node are those its kind, type and address flag call for |
| `FinshCompiler.Compiler.Compile` | components/finsh/finsh_compiler.c:43-757 | appends exactly the code of the tree to the text |
| `FinshCompiler.Compiler.CompileProgram` | components/finsh/finsh_compiler.c:903-937 | leaves the code of all statements, with a pop after each but the last, followed by zeros only |
| `Memheap.Heap.constructor` | src/memheap.c:60-131 | a new pool is one free block and the empty used tailer |
| `Memheap.Heap.Alloc` | src/memheap.c:146-288 | keeps the whole invariant (ring tiles the pool with next and prev inverse, free list is exactly the free blocks, no two free neighbours, counters right); fails exactly if the request is not below the free total or no block fits; otherwise gives the first fitting block of the free list, of at least as many bytes as asked for and less than a word, or a smallest block, and what does not make a block of its own too many; no other live block or its contents changes, the new level is added to the history and max_used_size is the larger of itself and that level |
| `Memheap.Heap.FindFit` | src/memheap.c:166-180 | the search stops at the first block of the free list that fits, or finds that none does |
| `Memheap.Heap.Realloc` | src/memheap.c:291-496 | in every branch keeps the invariant, the first min(old, new) bytes, at least as many bytes as asked for, every other live block and the history of levels, of which max_used_size is the maximum; fails exactly if the block is too small, has no room to grow in place and an alloc would fail, and then nothing changes |
| `Memheap.Heap.Free` | src/memheap.c:499-593 | merges with free neighbours, keeps the invariant and every other live block, and adds the new level to the history, whose maximum max_used_size stays |
| `Memheap.AllocThenFree` | src/memheap.c:146-288 | freeing what was just allocated restores the block list and the free total |
| `Memheap.BlocksDetermined` | src/memheap.c:534-576 | a coalesced tiling is determined by its used blocks |
| `Memheap.RefusedFit` | src/memheap.c:163-164 | a request that fits some free block is refused if and only if it would use up the whole free total |
| `Memheap.WholePoolRefused` | src/memheap.c:163-164 | a fresh pool of any size refuses a request for exactly its free words and serves one for a word less |
| `MemheapLinks.LinkAfterSplits` | src/memheap.c:203-218 | inserting a header behind another one splits its block |
| `MemheapLinks.UnlinkMerges` | src/memheap.c:535-537 | taking a header out of the ring merges its block with the one before |
| `MemheapLinks.PushFreeRing` | src/memheap.c:571-575 | inserting behind the list header puts a block first in the free list |
| `MemheapLinks.DropFreeRing` | src/memheap.c:555-556 | unlinking takes exactly that block out of the free list |
| `MemheapState.AbsorbState` | src/memheap.c:546-560 | taking a free right neighbour off the free list and out of the ring is one merge |
| `TimerSpec.AfterExact` | src/timer.c:336-345 | the wrapped comparison agrees with true time exactly within its window |
| `TimerSpec.ExpiredExact` | src/timer.c:499 | the wrapped due test agrees with true time exactly within its window |
| `TimerSpec.StartOk` | src/timer.c:290-380 | starting keeps the list sorted, complete and within the window |
| `TimerSpec.CheckFires` | src/timer.c:478-533 | a check fires exactly the due timers, in list order, but those an earlier callback stopped, whatever else the callbacks start and stop, their own timer included unless they restart it |
| `TimerSpec.CheckEnds` | src/timer.c:478-533 | after a check no listed timer is due |
| `TimerSpec.QuietCallbacks` | src/timer.c:478-533 | with callbacks that stop nothing, every due timer fires |
| `TimerSpec.Unstopped` | src/timer.c:478-533 | a due timer that no callback stops fires |
| `TimerSpec.FiringOrder` | src/timer.c:478-533 | what a check fires is a part of the list in its order, by deadline and by start within a deadline |
| `TimerSpec.DueExact` | src/timer.c:478-499 | the due front of the list is exactly the timers whose deadline has come |
| `TimerSpec.OwnRestart` | src/timer.c:512-528 | a callback that stops and starts its own one-shot timer leaves it linked without its flag |
| `TimerSpec.SettlesIff` | src/timer.c:505-528 | for every script of starts and stops a callback runs: restarting or clearing its timer afterwards leaves list and flags right if and only if the script does not stop that timer and then leave it started |
| `TimerSpec.LinkedIff` | src/timer.c:505-528 | a callback leaves its own timer linked exactly if its script stops it and its last command about it is a start |
| `TimerRuns.FiresOnTime` | src/timer.c:478-533 | in every run of ticks, starts, stops and callbacks that does not stop it, a timer first fires at the very tick of its deadline |
| `TimerRuns.FiresPeriodically` | src/timer.c:505-528 | in every run that does not disturb it, a periodic timer fires at its deadline, at one period after it, at two, and so on, at every one of these ticks the run reaches and at no other |
| `TimerRuns.BeatNth` | src/timer.c:515-521 | the n-th of these ticks is the deadline and n periods |
| `TimerRuns.NthBeat` | src/timer.c:515-521 | and every one of them is the n-th for some n |
| `TimerRuns.FiresOnce` | src/timer.c:505-528 | in every run that does not start it again, a one-shot timer fires at its deadline and at no other tick, and is then neither listed nor active |
| `TimerRuns.OffIsSilent` | src/timer.c:478-533 | a timer that is off and not started does not fire and stays off |
| `TimerRuns.StartsAndStops` | src/timer.c:290-432 | a started timer is listed with the deadline of now and its time; a stopped one is off |
| `TimerRuns.OncePerTick` | src/timer.c:478-533 | a tick fires no timer twice |
| `TimerRuns.StartOrder` | src/timer.c:330-346 | at every point of every run the list is in the order of deadlines, of starts within a deadline, and the next tick fires in that order |
| `TimerRuns.StepFires` | src/timer.c:478-533 | one step fires a timer exactly if it is the tick that reaches its deadline, and else leaves it |
| `TimerRuns.TickBetween` | src/clock.c:62-90 | between ticks every deadline stays in the window in which wrapped ticks compare rightly |
| `TimerRows.TallPlace` | src/timer.c:322-365 | inserting by deadline into the bottom row is, in each row, inserting by deadline or nothing |
| `TimerRows.TallOfTall` | src/timer.c:322-353 | every row is a sub-sequence of the row below |
| `TimerRows.Descend` | src/timer.c:351-352 | the node where one row's search ends lies in the next row, not past where that search will end |
| `TimerRows.LinkRows` | src/timer.c:361-373 | whatever height is chosen, the rows are those of the list with the timer inserted by deadline |
| `TimerRows.UnlinkRows` | src/timer.c:121-129 | unlinking in all rows removes the timer from the list and nothing else |
| `TimerList.TimerTable.SearchRow` | src/timer.c:325-350 | the inner loop ends at the last node of the row that is not later than the new timer |
| `TimerList.TimerTable.Search` | src/timer.c:321-353 | the outer loop finds that node in every row |
| `TimerList.TimerTable.Start` | src/timer.c:290-380 | the skip list refines stable insertion into one list sorted by unbounded deadline; an active timer is refused |
| `TimerList.TimerTable.Stop` | src/timer.c:409-432 | removes the timer from every row; an inactive timer is refused |
| `TimerList.TimerTable.Check` | src/timer.c:478-533 | terminates and does to list and flags exactly what the check on the list does, in the same order; what that is over runs, periodic restarts included, `TimerRuns.FiresPeriodically` and `FiresOnce` say |
| `TimerList.TimerTable.Tick` | src/clock.c:62-90 | one tick is one step of the run |
| `TimerList.TimerTable.NextTimeout` | src/timer.c:108-119 | the first timer has the least deadline; RT_TICK_MAX for none |
| `WaitQueue.ArrivalOrder` | src/ipc.c:92-135 | after any run of arrivals, service, departures, dismissals and priority changes outside it, a queue is in the order of priority and of arrival within one, or of arrival alone |
| `WaitQueue.SpendsInAll` | src/ipc.c:1486-1493 | a call that is woken and waits again, any number of times, waits its own time in all |
| `MailboxSpec.StepOk` | src/ipc.c:1404-1715 | every step of every thread keeps the mailbox invariant |
| `MailboxSpec.RunOk` | src/ipc.c:1404-1715 | it holds in every state of every run, under stealing, timeouts and reset |
| `MailboxSpec.NothingStranded` | src/ipc.c:1404-1715 | once every woken thread has run, a queued receiver means an empty box and a queued sender a full one |
| `MailboxSpec.RunReplays` | src/ipc.c:1436-1673 | at every point of every run the box holds what a plain bounded queue holds that the events alone drive; a send, at once or woken again, ends Sent exactly if there is room, and then its own mail is the last; a receive ends with the oldest mail exactly if there is one |
| `MailboxSpec.InOrder` | src/ipc.c:1404-1673 | in every run without resets, the mails that calls got, followed by those in the box, are the mails of the calls that ended Sent, in that order |
| `MailboxSpec.WaitEnds` | src/ipc.c:1404-1715 | a queued receiver or sender leaves only as the first of its queue by a send or a receive, by its own timeout or by a reset |
| `Mailbox.MailBox.TrySend` | src/ipc.c:1436-1521 | the ring buffer stores the mail last and wakes the first receiver, or the sender waits or fails; `MailboxSpec.RunReplays` says which mail |
| `Mailbox.MailBox.TryRecv` | src/ipc.c:1583-1673 | the ring buffer gives the oldest mail and wakes the first sender, or the receiver waits or fails |
| `Mailbox.MailBox.Timeout` | src/thread.c:632-654 | a timed-out thread leaves its queue and nothing else changes |
| `Mailbox.MailBox.Reset` | src/ipc.c:1686-1715 | every waiting thread fails and the box is empty |
| `MessageQueueSpec.StepOk` | src/ipc.c:1924-2278 | every step of every thread keeps the message queue invariant |
| `MessageQueueSpec.NodesConserved` | src/ipc.c:1738-1785 | queue, free list and nodes in transit always add up to the pool |
| `MessageQueueSpec.RunReplays` | src/ipc.c:1924-2278 | over every run, under any interleaving, the queue holds what a plain sequence holds that the events alone drive: the link of a send puts the bytes of that call last, of an urgent send first, a receive takes the first, a reset empties |
| `MessageQueueSpec.RunFifo` | src/ipc.c:1924-2221 | in every run without urgent messages and resets, what was delivered followed by what is queued is what was linked, in link order |
| `MessageQueueSpec.LinkOfCall` | src/ipc.c:1958-1976 | whatever happens between a send and its own link, that link puts exactly the bytes of the send last, or first if it was urgent |
| `MessageQueueSpec.RunReceives` | src/ipc.c:2190-2213 | over every run a receive ends with the bytes of the message it took from the plain sequence, cut to the size asked for |
| `MessageQueueSpec.SendOutcome` | src/ipc.c:1936-1958 | a send fails as too long or as full exactly if it is, and else fills a node with its own bytes |
| `MessageQueueSpec.RecvOutcome` | src/ipc.c:2121-2180 | a receive takes a message exactly if there is one, and else waits or times out |
| `MessageQueueSpec.WaitEnds` | src/ipc.c:2121-2203 | a queued receiver leaves only as the first of its queue by a link, by its own timeout or by a reset |
| `MessageQueueSpec.HolderUndisturbed` | src/ipc.c:1950-1965 | no step of another thread touches a node in transit or the call that holds it |
| `MessageQueueSpec.ReceivedWhole` | src/ipc.c:2190-2213 | a receiver gets the message it unlinked, however long it takes to copy it |
| `MessageQueue.Queue.constructor` | src/ipc.c:1738-1785 | all nodes are on the free list |
| `MessageQueue.Queue.Grab` | src/ipc.c:1936-1958 | takes the first free node for the bytes of the call, or reports a full queue or a message too long; where these bytes go `MessageQueueSpec.LinkOfCall` says |
| `MessageQueue.Queue.Link` | src/ipc.c:1960-1998 | links the filled node at the tail, or at the head if urgent, and wakes the first receiver |
| `MessageQueue.Queue.TryRecv` | src/ipc.c:2121-2203 | unlinks the first node, or waits, or fails |
| `MessageQueue.Queue.Release` | src/ipc.c:2205-2221 | copies the message out and puts the node on the free list |
| `MessageQueue.Queue.Reset` | src/ipc.c:2234-2278 | every queued node goes to the free list and every waiting thread fails; nodes in transit stay |
| `MutexSpec.StepOk` | src/ipc.c:642-859 | every step, changes of any priority included, keeps counts, owner, queue and waiting threads in agreement |
| `MutexSpec.Inheritance` | src/ipc.c:642-859 | in every run of a mutex that queues by priority whose priority changes are harmless to the order of owner and waiters, in every state the owner is at least as urgent as every waiter |
| `MutexSpec.Restored` | src/ipc.c:805-817 | in every run in which no owner is given a priority other than the one it took the mutex with, every thread that is not the owner runs at its own priority |
| `MutexSpec.UrgentIff` | src/ipc.c:642-859 | from any state in which the owner is at least as urgent as all waiters, with either queue, a step leaves it so if and only if it is no priority change that puts the owner below or a waiter above, and no last release whose first waiter is less urgent than one that stays |
| `MutexSpec.InOrderIff` | src/ipc.c:92-135 | the queue stays in priority order if and only if no queued thread is given a priority that does not fit its place |
| `MutexSpec.BasedIff` | src/thread.c:485-526 | the recorded priorities stay right if and only if the owner is not given a priority other than the one it took the mutex with |
| `MutexSpec.GoesBack` | src/ipc.c:808-817 | the last release sets the owner back to the priority it took the mutex with, so it ends at its own priority exactly if that is still the same |
| `MutexSpec.OriginalStays` | src/ipc.c:684 | while a thread owns the mutex, only a change of its own priority moves either of the two |
| `MutexSpec.WaitEnds` | src/ipc.c:711-752 | a waiting take ends granted, then owning the mutex once, or timed out |
| `MutexSpec.HoldsCounted` | src/ipc.c:660-859 | over every run the holds of the owner are the takes that ended at once and the grants it had, less its accepted releases; for every other thread they cancel out |
| `MutexSpec.Exclusion` | src/ipc.c:642-859 | so at no point of any run do two threads have holds |
| `MutexSpec.TakenIff` | src/ipc.c:666-710 | in every run a take ends at once if and only if no other thread has a hold, and else waits or times out |
| `MutexSpec.ReleasedIff` | src/ipc.c:786-859 | in every run a release is accepted if and only if its caller has a hold; the last hold passes to the first in the queue |
| `MutexSpec.FifoInversion` | src/ipc.c:816-838 | a run of a mutex with arrival-order queueing, three takes and a release, after which the owner is less urgent than a waiter |
| `Mutex.MutexObject.Take` | src/ipc.c:642-761 | take, nest, or raise the owner and wait |
| `Mutex.MutexObject.Resume` | src/ipc.c:736-752 | a granted thread resumes as the owner |
| `Mutex.MutexObject.Release` | src/ipc.c:772-859 | the last release restores the priority and hands over to the first waiter |
| `Mutex.MutexObject.Timeout` | src/thread.c:632-654 | a timed-out thread leaves the queue |
| `Event.NobodyWaitsInVain` | src/ipc.c:998-1199 | in no reachable state does a thread wait for flags that are there |
| `Event.SendAsRecv` | src/ipc.c:1030-1064 | what a send reports to and clears for a waiter is what a receive by it would |
| `Event.FlagHistory` | src/ipc.c:998-1236 | at every point of every run a flag is set if and only if some send set it and since then, that send included, no reset, no receive with the option to clear that got its flags and no waiter woken with that option cleared it |
| `Event.SendWakes` | src/ipc.c:1025-1072 | of the waiters in queue order, a send wakes one if and only if all, or one, of the flags it waits for are set and not taken by a waiter before it, and it gets these; the others stay in order |
| `Event.RecvOutcome` | src/ipc.c:1106-1199 | a receive gets its flags at once if and only if all, or one, of them are set, is refused without flags, and else waits or times out |
| `Event.RecvEachUnsatisfied` | src/ipc.c:1025-1072 | no waiter a scan passed is satisfied by the flags it leaves |
| `Event.StepOk` | src/ipc.c:998-1236 | every step keeps the event invariant |
| `Event.EventObject.Send` | src/ipc.c:998-1077 | a send is: or the flags in, then a non-blocking receive by each waiter in queue order |
| `Event.EventObject.Recv` | src/ipc.c:1093-1199 | reports and clears the satisfied flags, or waits, or fails |
| `Semaphore.UnitsConserved` | src/ipc.c:328-510 | in every reachable state initial + released = value + granted, and no unit lies while a thread waits |
| `Semaphore.UnitsExact` | src/ipc.c:328-510 | at every point of every run the value and the units given to threads, counted by takes that ended at once and by grants, make up the starting value and the releases since the last reset |
| `Semaphore.TakeOutcome` | src/ipc.c:340-375 | a take gets a unit at once if and only if there is one; else it waits, or times out if it may not |
| `Semaphore.WaitOutcome` | src/ipc.c:340-405 | over every run a thread that waits goes on waiting until a release grants it a unit while it is first in the queue, it times out, or a reset dismisses it |
| `Semaphore.ServiceOrder` | src/ipc.c:92-135 | at every point of every run, of two queued threads the one in front is more urgent, or as urgent and has waited longer since its take; without priorities, has waited longer |
| `Semaphore.GrantKept` | src/ipc.c:459-464 | over every run a grant stands until the thread itself runs on |
| `Semaphore.SemaphoreObject.Take` | src/ipc.c:328-411 | takes a unit, or waits, or fails |
| `Semaphore.SemaphoreObject.Release` | src/ipc.c:435-477 | hands the unit to the first waiter, or keeps it |
| `Semaphore.SemaphoreObject.Reset` | src/ipc.c:489-519 | every waiting thread fails and the value is the new one, modulo 2^16 |
| `Semaphore.SemaphoreObject.ResumeAll` | src/ipc.c:170-197 | the loop fails every waiting thread and no other |
| `RingList.InsertAfterRing` | include/rtservice.h:62-69 | inserting behind a node of a ring gives the ring with the node there |
| `RingList.BeforeIsAfter` | include/rtservice.h:77-84 | inserting before a node is inserting after its predecessor |
| `RingList.RemoveRing` | include/rtservice.h:90-96 | removing a node gives the ring without it, and the node alone |
| `Scheduler.Nodes.InsertAfter` | include/rtservice.h:62-69 | the four writes do what the function on links says, whatever nodes coincide |
| `Scheduler.Nodes.InsertBefore` | include/rtservice.h:77-84 | the same for inserting before |
| `Scheduler.Nodes.Remove` | include/rtservice.h:90-96 | the same for removing |
| `RingTable.EnterRings` | include/rtservice.h:77-84 | entering one list leaves every other list over the same nodes as it is |
| `RingTable.LeaveRings` | include/rtservice.h:90-96 | leaving a list, or none, leaves every other list as it is |
| `Bitmap.FfsRight` | src/kservice.c:1238-1251 | __rt_ffs gives the index, from 1, of the lowest set bit of every 32-bit word, and 0 for zero |
| `Bitmap.TableRight` | src/kservice.c:1207-1225 | every entry of the table is the lowest set bit of its index |
| `Bitmap.HighestRight` | src/scheduler.c:203-211 | one-level and two-level look-up give the most urgent marked priority |
| `Bitmap.MarkedHas` | src/scheduler.c:301-304 | marking and clearing change the bit of that priority only |
| `SchedulerSpec.TakeOk` | src/scheduler.c:336-349 | removing a ready thread keeps bitmap and rings in agreement |
| `SchedulerSpec.PutOk` | src/scheduler.c:267-308 | inserting a thread keeps them in agreement |
| `SchedulerSpec.Selects` | src/scheduler.c:203-217 | the look-up selects the most urgent non-empty ring |
| `SchedulerSpec.ChangedOk` | src/thread.c:485-526 | a priority change moves the thread to the ring of its new priority |
| `SchedulerSpec.RoundRobin` | src/thread.c:377-411 | while the threads of a ring yield in turn, the k-th to run is the k-th of the ring, and after a whole round the ring is as it was |
| `SchedulerSpec.ResumeLast` | src/thread.c:592-622 | a resumed thread is ready, last in the ring of its priority and gone from the list it waited in; no other list changes |
| `SchedulerSpec.SuspendsOut` | src/thread.c:554-584 | a suspended thread is in no list and all others keep their places |
| `SchedulerSpec.ChangeLast` | src/thread.c:485-526 | a ready thread given another priority is last in the ring of that priority and gone from the old one; another keeps its place |
| `Scheduler.Kernel.Schedule` | src/scheduler.c:191-258 | unlocked, the head of the most urgent non-empty ring becomes current; locked, nothing changes |
| `Scheduler.Kernel.InsertThread` | src/scheduler.c:267-308 | puts the thread last in its ring, makes it ready and sets its bit |
| `Scheduler.Kernel.RemoveThread` | src/scheduler.c:318-353 | takes the thread out and clears the bit exactly if the ring is then empty |
| `Scheduler.Kernel.Startup` | src/thread.c:203-234 | a started thread is ready at its initial priority |
| `Scheduler.Kernel.Suspend` | src/thread.c:554-584 | only a ready thread is suspended |
| `Scheduler.Kernel.Resume` | src/thread.c:592-622 | only a suspended thread is resumed, off any wait list |
| `Scheduler.Kernel.Timeout` | src/thread.c:632-654 | a timed-out thread becomes ready |
| `Scheduler.Kernel.Yield` | src/thread.c:377-411 | the current thread goes to the end of its ring; alone there it stays |
| `Scheduler.Kernel.ChangePriority` | src/thread.c:485-526 | the thread keeps its state and is in the ring of its new priority exactly when ready |
| `Scheduler.Kernel.SuspendOn` | src/ipc.c:92-135 | the search loop puts the thread at the end of the wait list, or before the first less urgent one |
| `Scheduler.Kernel.ResumeFirst` | src/ipc.c:146-159 | resumes the first of the wait list |
| `SmallHeapSpec.PluggedOk` | src/mem.c:136-174 | joining free neighbours restores tiling, coalescing and counters |
| `SmallHeapSpec.FreedLowest` | src/mem.c:504-558 | over mallocs and frees the hint stays the lowest free block |
| `SmallHeapSpec.CarvedOk` | src/mem.c:286-352 | a malloc keeps tiling, coalescing, used_mem and the hint |
| `SmallHeapSpec.ChosenRight` | src/mem.c:279-286 | malloc gives the lowest block that fits, and fails if and only if every block with room is the last one and would be filled exactly |
| `SmallHeapSpec.FitsIff` | src/mem.c:279-286 | the search accepts a free block with room if and only if it is not the last one filled exactly |
| `SmallHeapSpec.ChosenFrom` | src/mem.c:279-286 | from any hint, malloc fails if and only if no block from the hint on is accepted, and gives the first that is |
| `SmallHeap.WholeHeapRefused` | src/mem.c:279-286 | a fresh heap of any size refuses a request for exactly its words and serves one for a word less |
| `SmallHeapSpec.FreeUndoes` | src/mem.c:504-558 | freeing what was just allocated restores blocks, hint and used_mem |
| `SmallHeapSpec.ShrunkOk` | src/mem.c:425-449 | a shrinking realloc keeps tiling, coalescing and used_mem |
| `SmallHeapSpec.ShrunkLowest` | src/mem.c:425-449 | it keeps the hint lowest exactly if a lower block was free already or the words given up joined the next block |
| `SmallHeap.HoleBelowHint` | src/mem.c:425-449 | malloc, malloc and a shrink of the first block: a free block lies below the hint |
| `SmallHeap.SmallHeap.constructor` | src/mem.c:184-231 | one free block and the end mark |
| `SmallHeap.SmallHeap.PlugHoles` | src/mem.c:136-174 | the header updates do what joining the blocks means |
| `SmallHeap.SmallHeap.Search` | src/mem.c:279-286 | the loop stops at the first block it accepts, from the hint on |
| `SmallHeap.SmallHeap.AdvanceLow` | src/mem.c:340-347 | the loop moves the hint to the next free block or the end |
| `SmallHeap.SmallHeap.Malloc` | src/mem.c:246-374 | headers, hint and counters after a malloc, which fails exactly as the search does and otherwise gives at least as many bytes as asked for, and less than a word or a smallest block and what does not make a block of its own too many |
| `SmallHeap.SmallHeap.Realloc` | src/mem.c:385-466 | for NULL what malloc does; same size, shrink in place, or move with the first min(old, new) words kept and no other word changed; fails exactly if the malloc would, and then nothing changes |
| `SmallHeap.SmallHeap.Free` | src/mem.c:504-558 | headers, hint and counters after a free |
| `PageSpec.TakenRight` | src/slab.c:257-274 | an allocation takes exactly its pages from the free ones, and the list stays sorted, disjoint and coalesced |
| `PageSpec.GivenRight` | src/slab.c:296-327 | a free adds exactly its pages, and the list stays sorted, disjoint and coalesced |
| `PageSpec.CanonicalUnique` | src/slab.c:296-327 | such a list is determined by its pages |
| `PageSpec.FreeUndoes` | src/slab.c:282-332 | freeing a run just allocated restores the list |
| `PageSpec.AllocRefuses` | src/slab.c:257-274 | an allocation is refused only if no run is long enough, and the lowest such run serves it |
| `PageHeap.PageAllocator.Alloc` | src/slab.c:246-280 | the pointer updates do what taking from the first fitting run means |
| `PageHeap.PageAllocator.Free` | src/slab.c:282-332 | the pointer updates do what giving back means, in each of the four cases |
| `RwLockSpec.StepOk` | components/pthreads/pthread_rwlock.c:139-352 | every step keeps the counters exact, under spurious wake-ups, left-over tokens and timeouts |
| `RwLockSpec.Exclusion` | components/pthreads/pthread_rwlock.c:139-352 | at every point of every run a writer is alone |
| `RwLockSpec.NoReaderPastWriter` | components/pthreads/pthread_rwlock.c:151-165 | a reader enters only while no writer holds the lock or waits for it |
| `RwLockSpec.AdmitsExactly` | components/pthreads/pthread_rwlock.c:139-285 | in every run a call or a woken waiter reads if and only if no thread writes or waits to, and writes if and only if no thread reads or writes; else it waits, or is busy if it only tries |
| `RwLockSpec.UnlockWakes` | components/pthreads/pthread_rwlock.c:288-319 | an unlock wakes the first queued writer if and only if nobody else holds the lock, and all queued readers if and only if no writer waits; nobody else |
| `RwLockSpec.StrandedReader` | components/pthreads/pthread_rwlock.c:288-319 | a run after which a reader waits for a free lock: the last waiting writer timed out |
| `RwLockSpec.StrandsExactly` | components/pthreads/pthread_rwlock.c:231-319 | from any state in which no reader is stranded, a step strands one if and only if it is the return of the only waiting writer, timed out, to a free lock without a reader token, with a reader asleep and none woken |
| `RwLockSpec.NobodyStranded` | components/pthreads/pthread_rwlock.c:139-352 | a run in which no writer sets a time limit strands no reader |
| `RwLockSpec.WriterOnItsWay` | components/pthreads/pthread_rwlock.c:288-319 | at every point of every run, if the lock is free and a writer is queued, a woken writer is about to take it |
| `RwLock.Lock.Acquire` | components/pthreads/pthread_rwlock.c:139-352 | the four ways to ask for the lock |
| `RwLock.Lock.TakeToken` | components/pthreads/pthread_cond.c:183-207 | the semaphore take of a waiting thread |
| `RwLock.Lock.Return` | components/pthreads/pthread_rwlock.c:156-165 | back under the mutex: uncount, give up or try again |
| `RwLock.Lock.Broadcast` | components/pthreads/pthread_cond.c:133-165 | the loop ends, wakes exactly the queued readers and leaves one token |
| `RwLock.Lock.Unlock` | components/pthreads/pthread_rwlock.c:288-319 | releases, and signals a writer or wakes the readers |
| `AtParse.Accepts` | bsp/easyio_core/atparse.c:8-168 | exactly the texts of the grammar are accepted: AT+ or +, up to 14 capitals, then CR, or = and 1 to 16 parameters ended by CR or the end |
| `AtParse.OverrunExactly` | bsp/easyio_core/atparse.c:77-100 | every write to the record is in bounds if and only if the text does not go on, behind a line with 16 good parameters and a comma, with the start of another |
| `AtParse.SeventeenOverrun` | bsp/easyio_core/atparse.c:77-100 | a good line with 17 parameters overruns the record |
| `AtParse.ParsePrinted` | bsp/easyio_core/atparse.c:8-168 | parsing a printed command recovers its name and the kinds and places of its parameters, or overruns the record if it has more than 16 |
| `AtParse.Parse` | bsp/easyio_core/atparse.c:8-168 | the character loop leaves in the record, field by field, the answer of the grammar's machine, and stops at the first write that would be out of bounds |
| `AtParse.GetString` | bsp/easyio_core/atparse.c:193-219 | the loop copies the text up to the closing quote or the end; not a string otherwise |
| `AtParse.ExtractPrinted` | bsp/easyio_core/atparse.c:193-219 | parsing a printed command and extracting at the places stored gives every string parameter back as it was, and says of the others that they are no strings |
| `SlabSpec.ZoneIndexRight` | src/slab.c:411-469 | every request below the limit gets an index below 72 that determines the chunk size; the chunk holds the request and wastes less than 8 bytes or an eighth |
| `SlabSpec.LessOk` | src/slab.c:558-583 | the chunk taken was not in use, and the chunks in use, on the free list and never used stay a partition that the counter counts |
| `SlabSpec.MoreOk` | src/slab.c:861-873 | giving a chunk back keeps that partition |
| `SlabSpec.WhollyFree` | src/slab.c:885-886 | a zone whose counter says it is wholly free has no chunk in use |
| `SlabSpec.FreshOk` | src/slab.c:637-660 | a new zone fits its pages behind its header and has at least two chunks |
| `SlabSpec.AddressRight` | src/slab.c:856-863 | the page of a chunk lies in its zone and its address gives the chunk |
| `SlabSpec.ListsAfter` | src/slab.c:554-563 | each of the 72 lists holds exactly the zones of its index with free chunks, after any zone changes |
| `SlabState.BlocksApart` | src/slab.c:488-684 | two blocks handed out have no byte in common, small or large |
| `SlabState.BlockNotFree` | src/slab.c:488-684 | no block handed out has a byte in a page the page allocator holds free |
| `SlabState.LookUp` | src/slab.c:826-859 | for every block handed out, the page table tells large from small, the length of a large one, and the zone and chunk of a small one |
| `SlabState.TakeOk` | src/slab.c:549-591 | taking a chunk hands out one block more and keeps zones, lists and page table sound |
| `SlabState.ReuseOk` | src/slab.c:605-664 | a spare zone is reused for another chunk size without touching a block in use |
| `SlabState.GiveOk` | src/slab.c:861-877 | giving a chunk back keeps zones, lists and page table sound |
| `SlabState.RetireOk` | src/slab.c:885-905 | a wholly free zone moves from its list to the spare ones |
| `SlabState.ReleaseOk` | src/slab.c:907-930 | a spare zone goes back to the page allocator, with the page table cleared |
| `SlabPages.Granted` | src/slab.c:516-525 | pages that get an owner were free, so no zone or large block loses one |
| `SlabPages.Returned` | src/slab.c:828-850 | pages given back were their owner's alone |
| `Slab.ZonePages` | src/slab.c:384-393 | the loop finds the zone size: 32, 64 or 128 KB, doubled exactly while below a 1024th of the heap |
| `Slab.SlabHeap.constructor` | src/slab.c:354-405 | the heap starts sound with no block handed out; the page table fits in its own pages and the rest are free |
| `Slab.SlabHeap.TakeChunk` | src/slab.c:549-591 | takes from the first zone of the list |
| `Slab.SlabHeap.Mark` | src/slab.c:627-634 | the loops over the pages of a zone write its pages only |
| `Slab.SlabHeap.AddZone` | src/slab.c:611-664 | a zone on new pages; refused exactly if no run of pages is long enough |
| `Slab.SlabHeap.Malloc` | src/slab.c:488-684 | NULL exactly for size 0 or if list, spare zones and pages are exhausted; otherwise one new block of at least n bytes, and no other block moves |
| `Slab.SlabHeap.Trim` | src/slab.c:879-931 | a wholly free zone that is not the last of its list is kept spare, at most two of them, or its pages are freed |
| `Slab.SlabHeap.Free` | src/slab.c:793-935 | found by its address, exactly that block goes; no other block moves |
| `SlabSpec.Aligned` | src/slab.c:640-650 | a chunk whose size is a power of two is aligned to its size if and only if its zone is, so always up to a page; every chunk is aligned to 8 bytes |
| `SlabPages.ZoneGranted` | src/slab.c:627-634 | a new zone keeps the partition: every page is the table's, free, of exactly one zone or of exactly one large block |
| `SlabPages.ZoneReturned` | src/slab.c:915-930 | giving a zone back keeps the partition |
| `SlabPages.LargeGranted` | src/slab.c:511-519 | a new large block keeps the partition |
| `SlabPages.LargeReturned` | src/slab.c:828-850 | freeing a large block keeps the partition |

## Left out

- Context switch, interrupt masking, stacks, hooks and debug logging: they are the atomic steps of the model.
- finsh lexer, parser, heap and shell: the model starts from the syntax tree.
- finsh byte and word widths, string constants, and ++/-- on system variables: the code writes part of a stack slot or reads the identifier as a shell variable.
- finsh calls with more than 16 arguments: their slots stay on the stack; `FinshSemantics.FewArguments` excludes them.
- finsh memory: system calls and stores are taken not to write the text segment or the operand stack.
- Memheap.Heap.Alloc: addresses and sizes are in words of four bytes and each call is atomic, so the lock of the heap is not modelled.
- System-level rt_malloc and rt_realloc over several memheaps.
- SmallHeap.SmallHeap.Realloc: headers and data are separate arrays, so a program that writes over a header is outside the model; the memheap model has headers and data in one memory.
- SmallHeap.SmallHeap.Free: addresses outside the heap, which the code ignores, are not modelled.
- Slab.SlabHeap.Malloc: each call is atomic; the lock is not modelled. Where no pages are left for a new zone, the code releases the lock twice (src/slab.c:618-681).
- Slab.SlabHeap.Free: zone headers are values and the free chunks a sequence, not words in the pages; `BlocksApart` and `SlabSpec.FreshOk` show that no block overlaps a header or another block.
- Slab rt_realloc, rt_calloc and the counters of used memory; the kind and the offset of a page are unbounded numbers, not 2 and 30 bits.
- TimerList.TimerTable.Start: the row heads found by the search are a sequence, not an array.
- Soft timers, rt_timer_detach and rt_timer_delete: a soft timer's callback can unlink the saved next node.
- TimerSpec.CheckFires: callbacks are scripts of starts and stops; what else they do cannot reach the list.
- MutexSpec.Inheritance: each thread uses at most one mutex.
- Event.EventObject.Send: a word of flags is the set of the positions of its 1 bits.
- Detach and delete of IPC objects, and the error codes of threads beyond the outcome of the call.
- RwLockSpec.WriterOnItsWay: that a woken thread runs on at last is up to the scheduler.
- pthread_rwlock_destroy and the attribute functions.
- Scheduler.Kernel.Timeout: the error code of the thread is part of the IPC models, not of this one.
- src/mempool.c, src/module.c, src/device.c, src/object.c, src/idle.c, the printf family, the POSIX clock, queue and semaphore wrappers, libdl, drivers and tools: easy free lists, registries, loaders or input and output.
- AtParse.Parse: what the code does after a write behind the record; the model stops there.
- AtParse.GetString: the length of the caller's buffer, which the code ignores, and its 16-bit index.
- get_at_param_int: it reads an unterminated local buffer.
