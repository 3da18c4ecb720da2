# Verification of the Leah kernel's concurrency and allocation core

This project models the parts of the Leah kernel whose correctness depends on long runs and on state
that several functions share, and proves what they keep.

* **The scheduler** (`PriorityRounds`, `RoundRobin`, `Scheduler`). Five priority queues and a backup queue
  form one level, a plain round robin the other one; a quantum rotation alternates between them. The
  model shows that the priority level is one rotating queue in disguise, and derives fairness and bounded
  waiting from that. A slice of the priority level is always one tick: `getNext` resets the slice to 0,
  and 0 is a multiple of every slice length, so the level picks anew at every tick.
* **The blocking primitives** (`Mutex`, `Semaphore`, `Sleep`) and the kernel around them (`Kernel`): every
  step of the kernel, from `mutex_lock` to the timer interrupt, as one atomic step, because system calls
  run behind interrupt gates. A thread that was handed a mutex or a token and has not run since is kept
  apart from one that is running. `KernelLaws` carries what holds of one mutex, semaphore or sleeper over to
  whole runs of the kernel.
* **Their clients** (`UpDown`, `Philosophers`), with the threads interleaving between any two calls, and in
  `up` and `down` between the load and the store of the increment.
* **Pipes, the directory tree and open files** (`Pipe`, `Namespace`, `OpenFiles`). `Paths` says what `makeFile` and
  `getFile` mean by the components of a path, `Removal` what an open file leaves of a removed directory.
* **The buddy page allocator** (`BuddyTree`, `BuddyMarks`, `MemoryManager`; `MemoryReuse` for what comes after
  frees), **the kernel heap** (`Heap`) and **the contiguous allocator of BMFS** (`Bmfs`).
* **The lists underneath** (`LinkedList`, `CircularList`): the linked structures, shown to be the sequences
  that the other modules use. `Sequences`, `Threads` and `Options` hold shared vocabulary.

Operations that change state are methods of classes. Each is proved equal to a function on values
(`State() == F(old(State()), ...)`); the lemmas then prove what that function does, alone and over every
run. `dafny verify dfyconfig.toml` checks everything.

## What the proofs found

Where the code does not do what it is meant to do, the model keeps the code and states exactly when it
goes wrong.

* `freeMemory` keeps the tree well marked, and offers only blocks of which nothing is in use, exactly when
  the parent of the freed block is not USED (`BuddyMarks.FreedIsSafeIff`,
  `MemoryReuse.FreedOffersOnlyUnoccupiedIff`). Otherwise the parent is offered while a block below its other
  half is still in use (`MemoryReuse.FreedParentIsOfferedInUse`); two pages suffice
  (`MemoryReuse.FreeingHalfOfAUsedPair`).
* Free halves are never joined: a node stays divided once a request was answered below it
  (`MemoryReuse.DividedIffAnsweredBelow`). A request gets the lowest run of free pages below which no earlier
  request was answered, and fails exactly if there is none of that kind, with any number of free pages
  (`MemoryReuse.GetAfterFrees`, `MemoryReuse.GetAfterEverythingWasFreed`); two pages suffice again
  (`MemoryReuse.HalvesAreNeverJoined`).
* `split` breaks the chain of blocks in every case but two (`Heap.SplitAsWritten`, on the run of
  `Heap.SplitBreaksAChain`). `free` writes through NULL exactly when the block is the last but one and the last
  is free, or the block is the last and the one in front of it is free (`Heap.MergeAsWritten`): the first
  allocation and its release suffice (`Heap.FirstFreeWritesNull`, `Heap.FreeBehindFreeWritesNull`). The rest of
  `Heap` takes both lines as they are meant: the old successor points back to the remainder, and NULL is not
  written through.
* BMFS `create` puts a file over another one when nothing fits and a deleted record has room behind its old
  end; six creates and deletes on an empty disk lead there (`Bmfs.StaleRecordOverlaps`). With all records used
  up it counts the directory as empty: it takes block 1, and if the first record is the one that it uses
  again, it drops all the others (`Bmfs.CreateInFullDirectory`, `Bmfs.FirstRecordDropsTheOthers`). These are
  all the cases (`Bmfs.CreateIsSoundIff`).
* A write that takes all the room of a pipe hides one whole ring of bytes from the readers; the pipe is
  first-in first-out exactly on runs without such a write (`Pipe.PipeIsFifoIff`, and `Pipe.FullWriteIsHidden`
  for such a run).
* The philosophers lose a seat each time somebody is born into an empty table
  (`Philosophers.SeatsBelowForks`, `Philosophers.ASeatIsLeftIff`): safe, but two newborn philosophers
  may have two forks and no seat (`Philosophers.TwoForksAndNoSeat`).
* `getCWDPath` prints a path that `getFile` accepts exactly if it is not longer than the limit
  (`Namespace.PathLeadsBackIff`); five nested directories exceed it (`Namespace.DeepDirectoryIsNotFound`).
* A thread that blocks keeps every thread in one place exactly if it waits nowhere yet
  (`Kernel.BlockKeepsIff`). Only the idle thread can run while it waits: it is what runs when nothing is queued.

## Model

| member | source | states |
|---|---|---|
| `LinkedList.List.Offer` | Kernel/linkedList.c:30-42 | the element goes to the end; forward and backward links, count and contents agree |
| `LinkedList.List.Push` | Kernel/linkedList.c:44-57 | the element goes to the front |
| `LinkedList.List.Poll` | Kernel/linkedList.c:59-75 | takes the front element, NULL on an empty list |
| `LinkedList.List.Pop` | Kernel/linkedList.c:108-124 | takes the last element, NULL on an empty list |
| `LinkedList.List.RemoveByValue` | Kernel/linkedList.c:77-106 | unlinks the first `limit` occurrences of a value, wherever they are, and returns how many there were |
| `Sequences.RemoveUpToOneByOne` | Kernel/linkedList.c:77-106 | a removal with a limit is that many removals of the first occurrence, one after the other |
| `Sequences.RemoveFirstAt` | Kernel/linkedList.c:77-106 | and a removal of the first occurrence takes just that one out, wherever it stands |
| `CircularList.Ring.Next` | Kernel/circularList.c:12-16 | advancing the tail rotates the ring by one |
| `CircularList.Ring.InsertAtHead` | Kernel/circularList.c:62-72 | the element becomes the head of the ring |
| `CircularList.Ring.InsertAtEnd` | Kernel/circularList.c:74-77 | the element becomes the last of the ring |
| `CircularList.Ring.GetFirst` | Kernel/circularList.c:18-22 | returns the head of the ring, NULL on an empty one |
| `CircularList.Ring.DeleteByLocation` | Kernel/circularList.c:125-145 | drops exactly the element at that location and nothing if there is none |
| `CircularList.Ring.DeleteHead` | Kernel/circularList.c:123-123 | drops the head: with insertion at the end the ring is a first-in first-out queue |
| `CircularList.Ring.DeleteFirstByValue` | Kernel/circularList.c:94-121 | with limit 1 drops the first occurrence of the value and tells whether there was one |
| `PriorityRounds.PickRotates` | Kernel/roundRobinWithPriority.c:57-90 | one `getNext` is one turn of a single rotating queue: it returns its head and moves it to the end |
| `PriorityRounds.PickNothing` | Kernel/roundRobinWithPriority.c:57-90 | with nothing queued `getNext` returns NULL and changes nothing |
| `PriorityRounds.PickSorted` | Kernel/roundRobinWithPriority.c:57-90 | a pick keeps each thread in the queue of its niceness, the backup queue holding only the current one |
| `PriorityRounds.EnqueueInserts` | Kernel/roundRobinWithPriority.c:13-29 | an arrival goes behind all threads of its niceness and in front of others only; nobody else changes places |
| `PriorityRounds.RemoveDrops` | Kernel/roundRobinWithPriority.c:31-42 | a removal drops the thread's first place in the order, in whichever queue it is, and moves nobody else |
| `PriorityRounds.PicksFollowOrder` | Kernel/roundRobinWithPriority.c:57-90 | k consecutive picks are the first k threads of the order, which they rotate by k |
| `PriorityRounds.AnyWindowIsFair` | Kernel/roundRobinWithPriority.c:57-90 | any `threadCount` consecutive picks return every queued thread exactly as often as it is queued, and repeat with that period |
| `PriorityRounds.BoundedWaiting` | Kernel/roundRobinWithPriority.c:13-90 | on every run with arrivals and departures a thread is passed over at most once per thread in front of it and once per arrival |
| `PriorityRounds.SliceOfAThread` | Kernel/roundRobinWithPriority.c:44-55 | a running thread keeps the processor, tick by tick, while its slice is above 0 and below its niceness plus 3; at either end, or forced, it gives way |
| `PriorityRounds.PriorityQueue.EnqueueThread` | Kernel/roundRobinWithPriority.c:13-29 | keeps the queue invariant and `threadCount`; niceness 0 is forwarded |
| `PriorityRounds.PriorityQueue.RemoveThread` | Kernel/roundRobinWithPriority.c:31-42 | keeps the invariant and returns whether the thread was queued |
| `PriorityRounds.PriorityQueue.GetNext` | Kernel/roundRobinWithPriority.c:57-90 | the wrap-around search ends within MAX_PRIORITY turns and is the pick that the lemmas speak of |
| `PriorityRounds.PriorityQueue.QueueSchedule` | Kernel/roundRobinWithPriority.c:44-103 | keeps the running thread or picks, as `shouldCurrentBeEvicted` decides |
| `RoundRobin.RingQueue.EnqueueThread` | Kernel/roundRobin.c:7-11 | the thread goes to the end of the ring and is counted |
| `RoundRobin.RingQueue.RemoveThread` | Kernel/roundRobin.c:13-23 | the first occurrence of the thread leaves and the count follows |
| `RoundRobin.RingQueue.QueueSchedule` | Kernel/roundRobin.c:25-32 | returns the head and rotates, NULL on an empty ring |
| `Scheduler.EnqueueKeeps` | Kernel/scheduler.c:50-56 | enqueueing keeps the scheduler's invariant (queueID 0 exactly for niceness above 0, nobody queued twice) and adds that thread only |
| `Scheduler.EnqueueKeepsIff` | Kernel/scheduler.c:50-56 | it does so exactly for a thread that is in no queue yet and, before the first switch, has niceness 0 |
| `Scheduler.DequeueKeeps` | Kernel/scheduler.c:58-83 | dequeueing keeps the invariant and takes that thread out of the queues and no other |
| `Scheduler.PriorityLevelAlwaysPicks` | Kernel/roundRobinWithPriority.c:44-55 | a slice of the priority level is one tick: at its turn the level always picks anew |
| `Scheduler.SwitchKeeps` | Kernel/scheduler.c:87-132 | a tick or forced switch keeps the invariant and who is queued; the thread that runs is a queued one, or Init if nobody is queued |
| `Scheduler.SwitchRuns` | Kernel/scheduler.c:87-132 | which thread a switch runs, forced or not: the first one of the level whose turn it is by quanta 8 and 3, or of the other level if that is empty; it goes to the end of its level, the other level waits; Init runs only if nobody is queued; a forced switch is not counted |
| `Scheduler.TurnStays` | Kernel/scheduler.c:50-83 | coming and going does not touch the turn; leaving asks for a switch exactly if the running thread leaves and was queued |
| `Scheduler.SuspendKeeps` | Kernel/scheduler.c:73-132 | a thread that blocks leaves the queues, alone, and another one runs |
| `Scheduler.TickAdvances` | Kernel/scheduler.c:87-132 | with both levels busy each tick advances a cycle of 13 phases; the level of the phase turns, the other one waits |
| `Scheduler.NineOfThirteen` | Kernel/scheduler.c:33-34 | any 13 consecutive phases contain exactly 9 of level 0, from any phase on |
| `Scheduler.ThirteenTicks` | Kernel/scheduler.c:87-132 | 13 unforced ticks with both levels busy turn the priority level 9 times and the ring 4 times |
| `Scheduler.ForcedKeepsPhase` | Kernel/scheduler.c:87-132 | with both levels busy a forced switch keeps the phase and runs the head of the level at hand |
| `Scheduler.TicksAreShared` | Kernel/scheduler.c:50-132 | on every run, with forced switches, arrivals and departures in between, the ticks with both levels busy go to the levels as the cycle of 13 says |
| `Scheduler.NineOfThirteenTicks` | Kernel/scheduler.c:50-132 | so of 13 such ticks the priority level gets exactly 9, whatever happens in between |
| `Scheduler.PriorityThreadRuns` | Kernel/scheduler.c:87-132 | a queued thread of the priority level runs within 13 ticks per nine threads, rounded up |
| `Scheduler.RingThreadRuns` | Kernel/scheduler.c:87-132 | a queued thread of the ring runs within 13 ticks per four threads, rounded up |
| `Scheduler.KernelScheduler.Enqueue` | Kernel/scheduler.c:50-56 | for any thread, queued already or not: it is queued where its niceness sends it, its queueID says so, and the invariant stays exactly if it was in no queue and its niceness fits |
| `Scheduler.KernelScheduler.DequeueThread` | Kernel/scheduler.c:58-83 | removes the thread from the queue of its queueID, tells whether it was there, and forces a switch if it was running |
| `Scheduler.KernelScheduler.TakeTurn` | Kernel/scheduler.c:92-102 | the turn passes to the other level and the slice starts anew exactly if it is over 8 ticks at the priority level or over 3 at the ring; a forced call is not counted, any other one adds a tick |
| `Scheduler.KernelScheduler.ShortTerm` | Kernel/scheduler.c:87-132 | the loop over the levels is the switch that the lemmas speak of |
| `Scheduler.KernelScheduler.ForceScheduler` | Kernel/scheduler.c:73-132 | a forced switch: the slice is not counted, and the level at hand keeps its turn unless its quantum is over; the new state is the switch of `Scheduler.SwitchRuns` |
| `Mutex.AcquireExcludes` | Kernel/mutex.c:18-31 | a lock lets a thread in exactly when nobody is inside, and then that thread alone; otherwise it waits at the end |
| `Mutex.ReleaseHandsOver` | Kernel/mutex.c:33-58 | only the owner can let go; the mutex goes to the first waiter that is alive, or becomes free; those skipped are dead |
| `Mutex.WaitersAreServedInOrder` | Kernel/mutex.c:18-58 | on every run waiters are served in the order in which they blocked, and nobody gets in past a waiter |
| `Mutex.KernelMutex.Lock` | Kernel/mutex.c:18-31 | changes mutex and scheduler exactly as `Acquire` and blocking say; without a running thread it does nothing |
| `Mutex.KernelMutex.Unlock` | Kernel/mutex.c:33-58 | the loop over the waiters hands the mutex on as `Release` says, wakes that thread and erases exactly the dead ones it skipped |
| `Semaphore.WaitBlocksAtZero` | Kernel/sem.c:26-42 | a wait passes exactly at a positive value and takes one, otherwise the thread waits at the end |
| `Semaphore.SignalIsSpentOnce` | Kernel/sem.c:44-66 | a signal goes to the first living waiter or into the value, never both; dead waiters are dropped and cost nothing |
| `Semaphore.SignalsAreConserved` | Kernel/sem.c:26-66 | on every run value = start + signals - threads let past, and threads wait only at value 0 |
| `Semaphore.WaitersLeaveInOrder` | Kernel/sem.c:26-66 | on every run waiters leave in the order in which they joined |
| `Semaphore.KernelSemaphore.SemWait` | Kernel/sem.c:26-42 | the inner mutex is free before and after, so it never blocks; the rest is `Wait` |
| `Semaphore.KernelSemaphore.SemSignal` | Kernel/sem.c:44-66 | the same for `Signal`, with the woken thread in the scheduler and the dead ones erased |
| `Semaphore.KernelSemaphore.WakeWaiter` | Kernel/sem.c:49-62 | the loop over the waiters of `sem_signal` |
| `Sleep.TicksAreTheMillis` | Kernel/sleep.c:22-24 | a sleep takes the whole ticks in its milliseconds, and one at least |
| `Sleep.TickSplits` | Kernel/sleep.c:30-58 | an update takes off exactly those with one tick left and takes one tick from the others |
| `Sleep.TickKeepsNames` | Kernel/sleep.c:30-58 | nobody is lost or doubled by an update: each sleeper stays or is due, not both |
| `Sleep.TickConcat` | Kernel/sleep.c:30-58 | the update goes through the list in order: the due ones are taken, and the others kept, in the order in which they stand |
| `Sleep.WokenInOrder` | Kernel/sleep.c:42-47 | threads of niceness 0 that wake together go to the end of the ring in that order |
| `Sleep.WokenOnItsTick` | Kernel/sleep.c:16-58 | a sleeper of n ticks is woken once, by exactly the n-th update, whoever else goes to sleep meanwhile |
| `Sleep.SleepList.SleepCurrentThread` | Kernel/sleep.c:9-28 | the running thread is put on the list with its ticks and leaves the scheduler |
| `Sleep.SleepList.Rouse` | Kernel/sleep.c:42-47 | a dead thread is erased, a living one made ready and enqueued |
| `Sleep.SleepList.Update` | Kernel/sleep.c:30-58 | the loop that edits the list while it walks it enqueues the living due threads in order and erases the dead ones |
| `Kernel.BlockKeeps` | Kernel/scheduler.c:73-83 | a thread that blocks moves from the scheduler to the one queue it blocks in; nobody else moves |
| `Kernel.BlockKeepsIff` | Kernel/scheduler.c:73-83 | and blocking keeps every thread in one place exactly if the thread waits nowhere yet |
| `Kernel.WakeKeeps` | Kernel/scheduler.c:50-56 | threads that leave a wait queue are in the scheduler if alive and erased if dead; nobody else moves |
| `Kernel.LockKeeps` | Kernel/mutex.c:18-31 | locking keeps every thread in exactly one place |
| `Kernel.UnlockKeeps` | Kernel/mutex.c:33-58 | so does unlocking |
| `Kernel.WaitKeeps` | Kernel/sem.c:26-42 | so does waiting |
| `Kernel.SignalKeeps` | Kernel/sem.c:44-66 | so does signalling |
| `Kernel.SleepKeeps` | Kernel/sleep.c:9-28 | so does going to sleep |
| `Kernel.TickKeeps` | Kernel/sleep.c:30-58 | so does the timer interrupt, the update of the sleepers followed by the switch |
| `Kernel.SwitchKeepsPlaces` | Kernel/scheduler.c:87-132 | so does every switch |
| `Kernel.KillKeeps` | Kernel/process.c:219-241 | so does a kill: a queued thread is erased, a blocked one is marked dead where it waits |
| `Kernel.CreateKeeps` | Kernel/process.c:245-287 | so does the creation of a thread |
| `Kernel.RetireKeeps` | Kernel/kernel.c:77-78 | so does Init when it dequeues itself: it is in no queue from then on and still runs when nobody else can |
| `Kernel.StepKeeps` | Kernel/scheduler.c:50-132 | every step keeps every thread in exactly one place |
| `Kernel.StartInit` | Kernel/kernel.c:90-105 | the scheduler that `main` starts with is one from which the runs begin: Init alone is queued, and running |
| `Kernel.EveryThreadHasOnePlace` | Kernel/process.c:219-241 | in every state of every run, Init's departure from its queue included, each thread that is not erased is in exactly one scheduler, mutex, semaphore or sleep queue, once; no dead one is in the scheduler |
| `Kernel.DeadStayDead` | Kernel/mutex.c:43-57 | a dead thread stays dead until it is erased and is never enqueued again, by any step |
| `Kernel.SleeperRunsOnItsTick` | Kernel/sleep.c:16-58 | on every run of the kernel a thread that sleeps for n ticks and is not killed stays out of the scheduler until the n-th timer interrupt, which makes it runnable |
| `KernelLaws.RunsAreCalls` | Kernel/mutex.c:18-58 | on every run of the kernel each mutex, each semaphore and the list of sleepers live through exactly the calls that the steps make to them |
| `KernelLaws.WaitersAreServedInOrder` | Kernel/sem.c:26-66 | so on every run of the kernel the waiters of a mutex or a semaphore are served in the order in which they blocked, and the value of a semaphore is what it was plus the signals minus the threads let past |
| `UpDown.OneInside` | Userland/SampleCodeModule/programs/upDown.c:36-56 | at most one thread is between lock and unlock |
| `UpDown.StepKeeps` | Userland/SampleCodeModule/programs/upDown.c:36-56 | every step keeps the mutex in agreement with the threads and a loaded value current |
| `UpDown.StepAdds` | Userland/SampleCodeModule/programs/upDown.c:40-52 | what a step adds to the global is what its thread has then added: no increment is lost between load and store |
| `UpDown.RunsKeep` | Userland/SampleCodeModule/programs/upDown.c:36-56 | on every interleaving the global is its start plus what was added, and runs are no longer than the work |
| `UpDown.SomeoneGoesOn` | Userland/SampleCodeModule/programs/upDown.c:36-56 | no deadlock: while a thread has work some thread can go on |
| `UpDown.GlobalIsExact` | Userland/SampleCodeModule/programs/upDown.c:9-34 | every run ends, it ends with all threads finished, and then the global is exact |
| `UpDown.EndsAtStartPlusUpsMinusDowns` | Userland/SampleCodeModule/programs/upDown.c:9-56 | any number of threads end with global = start + ups - downs |
| `Philosophers.TakeSeatKeeps` | Userland/SampleCodeModule/programs/philosophers.c:104-104 | sitting down conserves seats and forks and keeps queues and philosophers in agreement |
| `Philosophers.TakeForkKeeps` | Userland/SampleCodeModule/programs/philosophers.c:105-106 | so does taking a fork |
| `Philosophers.GiveForkKeeps` | Userland/SampleCodeModule/programs/philosophers.c:115-116 | a fork given back is one more fork, in the semaphore or in the hand of a waiter |
| `Philosophers.GiveSeatKeeps` | Userland/SampleCodeModule/programs/philosophers.c:117-117 | the same for seats |
| `Philosophers.FreeLockKeeps` | Userland/SampleCodeModule/programs/philosophers.c:145-145 | leaving the mutex hands it to the first waiter or frees it, and whoever is inside is who the mutex says |
| `Philosophers.PhilStepKeeps` | Userland/SampleCodeModule/programs/philosophers.c:96-153 | every step of a philosopher, its departure included, keeps the invariant |
| `Philosophers.MainStepKeeps` | Userland/SampleCodeModule/programs/philosophers.c:72-94 | so does every step of `born` and `die` |
| `Philosophers.StepKeeps` | Userland/SampleCodeModule/programs/philosophers.c:72-153 | so does every step of anybody |
| `Philosophers.SeatsBelowForks` | Userland/SampleCodeModule/programs/philosophers.c:72-94 | on every run the table has fewer seats than forks, by exactly the births into an empty table and the pending one; `philosophersQty` counts those who have not left |
| `Philosophers.SomeSeatedCanGoOn` | Userland/SampleCodeModule/programs/philosophers.c:96-125 | on every run, if anyone sits then someone who sits is not blocked on a fork |
| `Philosophers.ASeatIsLeftIff` | Userland/SampleCodeModule/programs/philosophers.c:83-90 | between births a seat exists exactly if there are more forks than births into an empty table |
| `Philosophers.TheLastOneLeaves` | Userland/SampleCodeModule/programs/philosophers.c:72-144 | on every run with anybody in the community, a philosopher goes to `philosopherSuicide` exactly if it is at its check and is the one that stands last in the table, and when it leaves the one before it is next |
| `Philosophers.GoFollowsTheProgram` | Userland/SampleCodeModule/programs/philosophers.c:96-153 | which statement comes next for the philosopher that steps, blocked or not, and that nobody else's changes but a waiter's |
| `Philosophers.MainFollowsTheProgram` | Userland/SampleCodeModule/programs/philosophers.c:72-134 | what the statements of `born` and `die` do to the table, the numbers and the count of those called to die |
| `Philosophers.TwoForksAndNoSeat` | Userland/SampleCodeModule/programs/philosophers.c:72-94 | a run from the start in which the community dies out and two are born: two forks and no seat, free or taken |
| `Pipe.GetTakesFromTheFront` | Kernel/fileSystem.c:695-700 | bytes read plus bytes still unread are the bytes that were unread, through the wrap-around |
| `Pipe.PutAppends` | Kernel/fileSystem.c:624-629 | a write that leaves room is appended to the unread bytes; one that takes all of it makes the cursors equal |
| `Pipe.ReadGives` | Kernel/fileSystem.c:677-709 | a read takes the first unread bytes, as many as it asks for or all there are; it lets readers in further exactly if bytes are left or the end was announced, and writers again if they were shut out |
| `Pipe.WriteTakes` | Kernel/fileSystem.c:606-638 | a write takes its first bytes, as many as there is room for, and appends them unless they take all the room; it lets writers in further exactly if room is left, and readers again if they were shut out |
| `Pipe.WriteKeeps` | Kernel/fileSystem.c:606-638 | a write that got its token keeps tokens, flags, queues and the byte stream |
| `Pipe.ReadKeeps` | Kernel/fileSystem.c:677-709 | so does a read |
| `Pipe.CloseKeeps` | Kernel/fileSystem.c:454-465 | so does the end announced by the last writer |
| `Pipe.KillKeeps` | Kernel/process.c:219-241 | so does a kill, of a blocked thread or of one that was let go and has not run |
| `Pipe.TokensMatchTheFlags` | Kernel/fileSystem.c:454-709 | on every run semaphore value + tokens in hand + tokens lost with killed threads = flag; one flag is always up; a lowered reader flag means nothing to read and no end |
| `Pipe.NoWakeUpIsLost` | Kernel/fileSystem.c:606-709 | a reader waits with bytes or the end at hand only if some reader was let go or a token died with a killed one; likewise for writers |
| `Pipe.ReadDelivers` | Kernel/fileSystem.c:677-709 | on every run a reader that is let in gets the oldest unread bytes, as many as it asks for or all there are, and the rest stays unread |
| `Pipe.WriteDelivers` | Kernel/fileSystem.c:606-638 | on every run a writer that is let in has as many bytes accepted as there is room for, behind those that are unread |
| `Pipe.OthersMoveNothing` | Kernel/fileSystem.c:606-709 | whatever lets nobody in moves no byte; a caller that is not let in waits at the end of its side's queue |
| `Pipe.PipeIsFifoIff` | Kernel/fileSystem.c:606-709 | returned plus unread bytes are the accepted ones exactly on runs where no write took all the room; each such write hides one ring of bytes |
| `Pipe.FullWriteIsHidden` | Kernel/fileSystem.c:606-709 | a run on an opened pipe: a write of a whole ring is accepted and the read after it returns nothing |
| `Pipe.OpenedBuffer.constructor` | Kernel/fileSystem.c:501-513 | an open pipe starts empty with one writer token and no reader token |
| `Pipe.OpenedBuffer.WriteBuffer` | Kernel/fileSystem.c:611-638 | writes as many bytes as there is room for and returns that number; the bytes are appended unless they take all the room; the whole new state is `Written` |
| `Pipe.OpenedBuffer.ReadBuffer` | Kernel/fileSystem.c:682-709 | returns how many bytes it got: what was asked for, or all that were unread; they are in the caller's buffer in their order, the rest stays unread, the rest of that buffer is untouched; the whole new state is `Consumed` |
| `Pipe.OpenedBuffer.LastWriterGone` | Kernel/fileSystem.c:457-464 | announces the end: readers are allowed from then on, a living reader that waits while the flag is down is let in and otherwise a token is left for the next; what is unread stays so |
| `Namespace.CompareIsOrder` | Kernel/stdlib.c:19-27 | `strcmp` is 0 exactly on equal strings and its sign flips with its arguments |
| `Namespace.LessIsTransitive` | Kernel/stdlib.c:19-27 | and its order is transitive |
| `Namespace.LookupFinds` | Kernel/fileSystem.c:91-110 | in a sorted list the search finds a child with the name exactly if there is one |
| `Namespace.InsertKeepsOrder` | Kernel/fileSystem.c:118-131 | linking a new file in keeps every list strictly sorted by name |
| `Namespace.InsertKeepsLinks` | Kernel/fileSystem.c:118-131 | and keeps parents and lists in agreement, with valid names |
| `Namespace.WalkAfterInsert` | Kernel/fileSystem.c:74-143 | every path that led somewhere leads there still, the missing one to the new file |
| `Namespace.MakeFileThenGetFile` | Kernel/fileSystem.c:145-163 | `makeFile` adds at most one file, `getFile` of the path then returns it, and no other path is redirected |
| `Namespace.PathLeadsDown` | Kernel/fileSystem.c:74-143 | from the root the path of a file leads to it, component by component |
| `Namespace.PathLeadsBackIff` | Kernel/fileSystem.c:324-342 | `getFile` of the path of a file is that file exactly if the path is within the limit |
| `Namespace.DeepDirectoryIsNotFound` | Kernel/fileSystem.c:324-342 | a directory whose printed path `getFile` does not accept: five directories deep, with names of 63 characters |
| `Paths.GetFileIff` | Kernel/fileSystem.c:155-163 | `getFile` returns a file exactly if the path is short enough and its components, `.` and `..` among them, lead to it one by one from the root or the current directory |
| `Paths.MakeFileIff` | Kernel/fileSystem.c:145-153 | `makeFile` returns the file that the components lead to; if they lead to the directory of a missing last one, it makes that file there, with name and type; otherwise nothing is made |
| `Paths.RelativePath` | Kernel/fileSystem.c:145-163 | a path that does not begin with a slash means what it means behind the path of the current directory, if both together are short enough, for `getFile` and `makeFile`, whatever directory the latter is used in |
| `Namespace.DetachPrunes` | Kernel/fileSystem.c:255-277 | unlinking a file without children leaves a well-formed tree without that file |
| `Namespace.RemoveFileIff` | Kernel/fileSystem.c:279-294 | removal succeeds exactly if nothing below the target is open, and then removes exactly what is below it; open files stay, with their paths, in any case |
| `Removal.RemovedIff` | Kernel/fileSystem.c:279-294 | a file is gone after a removal exactly if it is below the target and comes, in the order of names, before every open file below it |
| `Namespace.FileTree.MakeFileR` | Kernel/fileSystem.c:74-143 | the recursive resolution with its loops is `Walk` followed by one insertion at most |
| `Namespace.FileTree.MakeFile` | Kernel/fileSystem.c:145-153 | resolution starts at the root or at the current directory; the result is `Made`, which `Paths.MakeFileIff` characterises |
| `Namespace.FileTree.GetFileByPath` | Kernel/fileSystem.c:155-163 | `getFile` is the same resolution and changes nothing; `Paths.GetFileIff` characterises what it returns |
| `Namespace.FileTree.RemoveFile` | Kernel/fileSystem.c:279-294 | the loop and the recursion of `removeFile` are `Removed`, a stopped removal included |
| `Namespace.FileTree.GetCwdPath` | Kernel/fileSystem.c:324-342 | the two loops of `getCWDPath` print the path of the directory |
| `OpenFiles.AddKeeps` | Kernel/fileSystem.c:383-428 | opening keeps one entry per open file, counting its descriptors by mode |
| `OpenFiles.DropKeeps` | Kernel/fileSystem.c:447-495 | so does closing, which drops the entry with the last descriptor |
| `OpenFiles.PipeKeeps` | Kernel/fileSystem.c:535-555 | an unnamed pipe is opened at both ends or leaves no trace |
| `OpenFiles.PipeHasTwoEnds` | Kernel/fileSystem.c:535-555 | with two free slots the first descriptor reads the new pipe and the second writes it; it has exactly these two |
| `OpenFiles.StepKeeps` | Kernel/fileSystem.c:255-573 | every make, remove, open, clone, pipe and close keeps the accounting and leaves open files in place |
| `OpenFiles.StepMoves` | Kernel/fileSystem.c:255-573 | what each call does: an open gives a descriptor of the file that the path leads to, in that mode, but none of a directory; a clone copies file and mode; a close takes one descriptor, and a pipe with its last; a removal takes what precedes the open files; nothing else moves |
| `OpenFiles.EntriesCountDescriptors` | Kernel/fileSystem.c:383-495 | on every run an entry exists exactly for each open file, with as many readers and writers as descriptors |
| `OpenFiles.OpenFilesStay` | Kernel/fileSystem.c:279-294 | on every run a file with a live descriptor keeps its place in the tree, whatever is removed |
| `OpenFiles.OpenFilesAreFound` | Kernel/fileSystem.c:155-163 | and `getFile` of its path still finds it |
| `OpenFiles.OpenedFiles.OpenFile` | Kernel/fileSystem.c:383-428 | the search and the counting of `openFile` are `Added`, with a new descriptor |
| `OpenFiles.OpenedFiles.CloseFile` | Kernel/fileSystem.c:447-495 | the counting and unlinking of `closeFile` are `Dropped`; it notices exactly the last writer |
| `BuddyTree.StartFromIndex` | Kernel/memoryManager.c:137-140 | the offset computed from index and order is where the node's pages begin |
| `BuddyMarks.FindIsLowest` | Kernel/memoryManager.c:60-112 | the search finds the lowest available block of its order, and none only if there is none |
| `BuddyMarks.AllocatedKeeps` | Kernel/memoryManager.c:142-156 | marking a found block keeps the tree well marked and makes exactly that block live |
| `BuddyMarks.FreedIsExact` | Kernel/memoryManager.c:179-221 | the walk by page number reaches the live block with that page and frees it |
| `BuddyMarks.FreedKeeps` | Kernel/memoryManager.c:179-221 | a block whose parent is not USED is freed alone, and the tree stays well marked |
| `BuddyMarks.FreedIsSafeIff` | Kernel/memoryManager.c:197-205 | `freeMemory` keeps the tree well marked exactly if the parent is not USED |
| `MemoryManager.LiveDisjoint` | Kernel/memoryManager.c:142-156 | live blocks share no page |
| `MemoryManager.AvailableIffUnoccupied` | Kernel/memoryManager.c:60-112 | with allocations only, a block is available exactly if none of its pages is handed out |
| `MemoryManager.RunsKeep` | Kernel/memoryManager.c:42-221 | on every run of requests and safe frees the live blocks stay disjoint |
| `MemoryManager.GetIsLowestUnoccupied` | Kernel/memoryManager.c:42-112 | after any run of requests the next gets the lowest aligned run of free pages of the smallest sufficient size, and fails only if there is none |
| `MemoryManager.AddressLeadsToBlock` | Kernel/memoryManager.c:223-225 | in a memory below 2^32 bytes the address that was returned for a block leads `freeMemory` to its first page |
| `MemoryManager.Memory.PageSizeMultiple` | Kernel/memoryManager.c:167-177 | the loop yields the smallest power-of-two number of pages that holds the bytes |
| `MemoryManager.Memory.NextPagesIndexToSearch` | Kernel/memoryManager.c:114-135 | the climb to the next node keeps order and block size in step |
| `MemoryManager.Memory.GetOffsetFromBaseAddress` | Kernel/memoryManager.c:60-112 | the iterative walk terminates, visits nodes with block size = memory / 2^order, and returns the lowest block |
| `MemoryManager.Memory.MarkUsedNodes` | Kernel/memoryManager.c:142-156 | the loop up to the root makes the marks of `Allocated` |
| `MemoryManager.Memory.GetMemory` | Kernel/memoryManager.c:42-54 | the address is that of the lowest block, NULL if there is none |
| `MemoryManager.Memory.FreeMemory` | Kernel/memoryManager.c:179-221 | the loop down the tree is `Freed`; addresses out of range change nothing |
| `MemoryReuse.AvailableIffUnsplit` | Kernel/memoryManager.c:60-112 | in every well-marked tree, whatever frees led to it, a block is available exactly if none of its pages is handed out and it is not marked SPLIT |
| `MemoryReuse.AnswerIsLowestIff` | Kernel/memoryManager.c:42-112 | a request gets the lowest run of free pages of its size exactly if no such run marked SPLIT lies below all others, and fails exactly if all are marked so |
| `MemoryReuse.DividedIffAnsweredBelow` | Kernel/memoryManager.c:142-221 | on every run of requests and safe frees a node is divided exactly if it was so at first or a request was answered below it |
| `MemoryReuse.GetAfterFrees` | Kernel/memoryManager.c:42-221 | after any run of requests and safe frees a request gets the lowest run of free pages below which no earlier request was answered, and fails exactly if there is none |
| `MemoryReuse.GetAfterEverythingWasFreed` | Kernel/memoryManager.c:42-221 | with everything freed again a request fails exactly if every block of its size had an answer below it |
| `MemoryReuse.FreeOfAFreePage` | Kernel/memoryManager.c:179-221 | freeing a page that is in no live block changes nothing and reports failure |
| `MemoryReuse.SecondFreeChangesNothing` | Kernel/memoryManager.c:179-221 | so does freeing a block twice |
| `MemoryReuse.HalvesAreNeverJoined` | Kernel/memoryManager.c:179-221 | a run for it: one page is taken and freed, and two pages are not had from an empty two-page memory |
| `MemoryReuse.FreedParentIsOfferedInUse` | Kernel/memoryManager.c:197-205 | if the parent of the freed block is USED, the next request may be given the parent, below which a block is still in use |
| `MemoryReuse.FreedOffersOnlyUnoccupiedIff` | Kernel/memoryManager.c:197-205 | after `freeMemory` no block in use is offered exactly if the parent was not USED |
| `MemoryReuse.FreeingHalfOfAUsedPair` | Kernel/memoryManager.c:197-205 | a run for it: two pages are taken one by one, one is freed, and a request for two pages is given both |
| `Heap.TakenKeeps` | Kernel/malloc.c:25-56 | after `malloc` the blocks tile the same arena and no two neighbours are free |
| `Heap.TakenAddsOne` | Kernel/malloc.c:25-56 | `malloc` makes exactly one block live, large enough; all others stay where they are |
| `Heap.MergedKeeps` | Kernel/malloc.c:58-69 | after `free` no two neighbours are free |
| `Heap.MergedDropsOne` | Kernel/malloc.c:58-69 | `free` takes exactly the freed block out of what is live, and the blocks tile the same arena |
| `Heap.FreeUndoesMalloc` | Kernel/malloc.c:25-69 | `free(malloc(n))` restores the identical list of blocks |
| `Heap.RunsKeep` | Kernel/malloc.c:25-69 | on every run tiling and coalescing hold, and `malloc` fails only when no free block is large enough |
| `Heap.PayloadsDisjoint` | Kernel/malloc.c:25-44 | live payloads share no byte and lie inside the arena |
| `Heap.TakenIsLinked` | Kernel/malloc.c:46-56 | the header writes of `split`, as meant, keep the doubly linked chain of the blocks |
| `Heap.JoinedIsLinked` | Kernel/malloc.c:58-66 | so do those of `merge` |
| `Heap.SplitAsWritten` | Kernel/malloc.c:46-56 | as written they keep the chain exactly if nothing is split off or the block is the last one |
| `Heap.SplitBreaksAChain` | Kernel/malloc.c:46-56 | a run to a block whose split breaks the chain: freed in front of a used one and handed out in part |
| `Heap.MergeAsWritten` | Kernel/malloc.c:58-69 | as written, with its recursion into the block in front, `merge` writes through NULL exactly if the block is the last but one and the last is free, or the block is the last and the one in front of it is free |
| `Heap.FirstFreeWritesNull` | Kernel/malloc.c:58-66 | a run for the first case: one `malloc` on a fresh arena, and its `free` |
| `Heap.FreeBehindFreeWritesNull` | Kernel/malloc.c:58-69 | a run for the second case: two blocks fill the arena and are freed in their order |
| `Heap.KernelHeap.Init` | Kernel/malloc.c:16-23 | the arena starts as one free block |
| `Heap.KernelHeap.Malloc` | Kernel/malloc.c:25-40 | the scan is first fit; the address returned is behind the header of the block taken |
| `Heap.KernelHeap.Split` | Kernel/malloc.c:46-56 | the header writes, one by one |
| `Heap.KernelHeap.Free` | Kernel/malloc.c:42-44 | gives back the block of that address |
| `Heap.KernelHeap.Merge` | Kernel/malloc.c:58-69 | the recursive merge is `Merged`, and the chain stays linked |
| `Bmfs.SortedIsOrdered` | Bootloader/BMFS/bmfs.c:595-606 | the comparison puts files first, by starting block |
| `Bmfs.SearchIsLowest` | Bootloader/BMFS/bmfs.c:661-683 | the scan over the sorted copy finds the lowest gap behind the files, or a stale one |
| `Bmfs.StartIsLowest` | Bootloader/BMFS/bmfs.c:614-683 | `create` decides on the lowest place that fits; without one, on a stale place exactly if there is one |
| `Bmfs.CreateIsLowest` | Bootloader/BMFS/bmfs.c:608-717 | a gap that is large enough is used, the lowest one, and extents stay disjoint even with deleted records; with no deleted record in the way it refuses exactly when no gap fits |
| `Bmfs.CreateInFullDirectory` | Bootloader/BMFS/bmfs.c:629-717 | with all 64 records used up, `create` refuses if none is deleted or the disk is too small; otherwise it puts the file at block 1, and drops all other records if the first one is the deleted one |
| `Bmfs.CreateIsSoundIff` | Bootloader/BMFS/bmfs.c:608-717 | `create` keeps all files and keeps them apart exactly under a condition on the directory before it: a place that fits or no stale room, and in a full directory block 1 free and its first record in use; a name that is there already changes nothing |
| `Bmfs.StaleRecordOverlaps` | Bootloader/BMFS/bmfs.c:661-683 | a run of four creates and two deletes on an empty disk of six blocks, after which the next `create` puts its file on a block of another one |
| `Bmfs.FirstRecordDropsTheOthers` | Bootloader/BMFS/bmfs.c:633-705 | a run of 64 creates and a delete, after which the next `create` leaves its own file only |
| `Bmfs.DeleteKeeps` | Bootloader/BMFS/bmfs.c:800-822 | `delete` keeps the files apart and every free place free |
| `Bmfs.RunsKeep` | Bootloader/BMFS/bmfs.c:608-822 | on every run whose creates meet that condition no two files ever share a block |
| `Bmfs.FilesStay` | Bootloader/BMFS/bmfs.c:608-822 | and no file is lost but by a `delete` of it |
| `Bmfs.Disk.FindFile` | Bootloader/BMFS/bmfs.c:203-228 | finds the file of that name exactly if there is one before the end of the directory |
| `Bmfs.Disk.ScanDirectory` | Bootloader/BMFS/bmfs.c:633-649 | counts the records in use and finds the first one that is free |
| `Bmfs.Disk.FindGap` | Bootloader/BMFS/bmfs.c:661-683 | the scanning loop is `Search` |
| `Bmfs.Disk.Create` | Bootloader/BMFS/bmfs.c:608-717 | the whole of `create` is `Created` on the directory |
| `Bmfs.Disk.Delete` | Bootloader/BMFS/bmfs.c:800-822 | marks the record of the file, and nothing if there is no such file |

## Left out

* Threads are values (process and index). That a new thread may get the index of an erased one whose control
  block still waits somewhere is not modelled.
* The scheduler, mutexes and semaphores hold their queues as sequences; `LinkedList` and `CircularList` prove
  that the linked structures behave as those sequences.
- CircularList.Ring.DeleteFirstByValue: models `deleteByValue` with limit 1 only, the limit that the kernel passes.
- Scheduler.KernelScheduler.ShortTerm: begins after the test for no living process, which returns at once.
- Kernel.StepKeeps: the idle thread is not killed, and does not block while it waits already (`Kernel.BlockKeepsIff` says that it then is in two places); joins are not modelled, so a killed thread that is queued is erased.
- Kernel.LockKeeps: a thread that would have to wait waits nowhere yet, which is no restriction on any but the idle thread.
- Kernel.WaitKeeps: a thread that would have to wait waits nowhere yet, as for `Kernel.LockKeeps`.
- Kernel.SleepKeeps: the running thread waits nowhere yet, as for `Kernel.LockKeeps`.
- Kernel.KillKeeps: joins, and the semaphore that is signalled when the last thread of a process ends, are not modelled.
- Kernel.CreateKeeps: a new thread does not get the index of an erased one whose control block still waits somewhere.
- Kernel.DeadStayDead: runs without joins, as for `Kernel.StepKeeps`.
- Kernel.EveryThreadHasOnePlace: runs without joins, as for `Kernel.StepKeeps`.
- Sleep.TicksAreTheMillis: the product of milliseconds and frequency does not wrap around here, as int does for sleeps of weeks.
- UpDown.GlobalIsExact: the global is unbounded, not an int of 32 bits.
- UpDown.EndsAtStartPlusUpsMinusDowns: the global is unbounded here too.
- Semaphore.KernelSemaphore.SemWait: a NULL semaphore is not modelled; sem_set_value, which repeats sem_signal, is not either.
- Semaphore.KernelSemaphore.SemSignal: a NULL semaphore, on which the source does nothing, is not modelled.
- Philosophers.PhilStepKeeps: a departing philosopher ends itself; the source looks the thread to cancel up in `phis`, which is another one if two philosophers pass the unlocked check at once. The lists that are printed and their mutex are left out.
- Pipe.OpenedBuffer.WriteBuffer: models what follows the wait on the semaphore; the wait itself is a step of `Pipe`. The mutex of the pipe is left out, as nobody can find it taken: it is held only inside one kernel call.
- Pipe.OpenedBuffer.ReadBuffer: the same for the wait of the readers and that mutex.
- Namespace.FileTree.RemoveFile: the root is not removed, where the source reads through its NULL parent.
- Namespace.FileTree.GetCwdPath: directories no deeper than the array of the source holds.
- OpenFiles.OpenedFiles.OpenFile: models what follows the tests for NULL and for a directory; the reset of the end flag of a pipe is left out.
- OpenFiles.OpenedFiles.CloseFile: closing the buffer of the file is in `Pipe`; the method tells when the last writer has gone.
- OpenFiles.StepKeeps: modes are the three of the header; `semClose` and `mutexClose`, which leave a descriptor in the table, are not part of the runs.
- MemoryManager.Memory.GetMemory: the memory is a power of two of pages, as the order computed by `log2` requires; addresses do not wrap around.
- MemoryManager.Memory.FreeMemory: the returned status of single-page frees is what the code returns, ERROR; nothing is claimed about it.
- Heap.KernelHeap.Malloc: the arena is contiguous memory that `getMemory` returned; `split` is as meant.
- Heap.KernelHeap.Split: as meant, with the old successor pointing back to the remainder; `Heap.SplitAsWritten` is about the lines as written.
- Heap.KernelHeap.Merge: as meant, with NULL not written through; `Heap.MergeAsWritten` is about the lines as written.
- Bmfs.Disk.Create: `qsort` is taken as a sort by its comparison. Disk reads and writes are left out.
* Allocation failures inside list, file, mutex and semaphore constructors.
* `setNiceness` and the background read queue: both put threads into the scheduler that also wait elsewhere.
* Process creation, stack frames, `waitpid` and joins, process heaps.
* Regular files, executables, named semaphores and mutexes as files, `listDir`.
* Interrupt setup, drivers, console, shell, user programs other than the two above.
