# Verified models of the spl demo programs

The repository is a collection of small teaching programs for Unix system programming. This project models
the ones that hold an algorithm or a protocol and proves, for all inputs and all interleavings, what the programs
are meant to do. `dafny verify dfyconfig.toml` checks everything.

A program whose difficulty is concurrency is a state machine: a `State`, a relation of single steps of its threads or
processes (`Enabled`, `Step`), and runs (`IsRun`), which are finite sequences of steps in any order from an initial
state. One step is one access to shared data, one operation on a mutex, condition variable, semaphore, barrier, signal
or FIFO, or one purely local test. The synchronisation primitives behave as section 2.9 of the System Interfaces volume
of POSIX.1-2017 says; spurious wakeups are included. Sequential code is written as methods over arrays, lists of nodes and
objects, each tied to a specification function about which the properties are proved.

| files | program |
|---|---|
| `ProdCons.dfy`, `ProdConsDelivery.dfy`, `ProdConsProgress.dfy`, `ProdConsFairness.dfy` | monitor bounded buffer with an exit handshake (`pthread_prodcons.c`) |
| `ShmBuffer.dfy`, `ShmDelivery.dfy` | semaphore bounded buffer in shared memory (`shm_producer.c`, `shm_consumer.c`) |
| `Ring.dfy`, `Buffers.dfy` | the circular array of both, and the code that changes it in place |
| `Segments.dfy`, `Reduction.dfy` | segment split and parallel reduction (`pthread_create_demo2.c`, `vmem_usage.c`) |
| `FileTree.dfy`, `Du1.dfy`, `Du2.dfy`, `Du2Accuracy.dfy` | disk usage by a post-order callback (`spl_du1.c`, `spl_du2.c`) |
| `Wtmp.dfy`, `LastSpec.dfy`, `Last.dfy` | login sessions read backwards (`spl_last.c`) |
| `AioCopy.dfy`, `PlainCopy.dfy` | overlapped and plain copy (`cp_aio.c`, `spl_cp1.c`) |
| `SyncIo.dfy`, `SyncIoTail.dfy`, `SyncIoProgress.dfy` | two processes that take turns by signals (`sync_io_demo.c`) |
| `UpcaseText.dfy`, `UpcasePair.dfy`, `Upcase.dfy`, `UpcaseResults.dfy`, `UpcaseOpening.dfy`, `UpcaseBlocking.dfy`, `UpcaseProgress.dfy` | FIFO client and servers (`upcase.c`, `upcased.c`, `threaded_upcased.c`) |
| `ProgressBar.dfy` | shared progress total (`threaded_progressbar.c`) |
| `Pwd.dfy` | path built from right to left (`spl_pwd.c`) |
| `Stty.dfy`, `SttyTables.dfy` | switches in tables of bit masks (`spl_stty.c`) |
| `Common.dfy` | options and sums over sequences |

Where the code does not do what its comments or documentation say, the model follows the code, and a lemma says
exactly when the two agree:

- `spl_du2.c` means to count a file with several links once, but identifies files by the product of inode and device
  number. Different files can share a product, and then one is left out (`Du2Accuracy.SharedKeyExample`). The listing
  is right exactly if no two files that are looked up share a product (`Du2Accuracy.AccurateIffKeysDistinct`).
- `spl_last.c` prints "still logged in" for a session that a crash ended, when the machine was booted again without a
  shutdown record (`LastSpec.CrashExample`, `LastSpec.VerdictAccuracy`). In the same way it prints "still running" for
  the earlier boot, or the end of a later run of the system (`LastSpec.CrashedBootExample`, `LastSpec.CrashedBootLine`,
  `LastSpec.BootLine`).
- The comment in `spl_last.c` speaks of the logout nearest to a login, but the matching loop goes on after it: a login is printed once for
  each logout on its line that is pending, several times exactly if two are (`LastSpec.ListedTwiceExample`,
  `LastSpec.LinesOfLogin`).
- `cp_aio.c` takes a failed read for the end of the file, so any file can be copied to an empty one without an error
  (`AioCopy.FailedReadEndsCopy`). It also takes a write that failed with EINTR for no error (`AioCopy.ByteCanBeLost`),
  and as it never clears `errno` it then passes over short writes as well (`AioCopy.ShortWriteIsPassedOver`).
  The signal handler is installed with SA_RESTART, so these two cases need a file system that returns EINTR all the same; for the signals
  of completed reads POSIX asks that write() be restarted. `AioCopy.CopyIsExactIff` has the exact condition for all of them.
- `sync_io_demo.c` stops for ever when a signal is delivered before the receiver is in pause(), and only then
  (`SyncIo.SignalCanBeLost`, `SyncIo.StuckIffSignalLost`). It does not look at how much its last read returns. With the data
  of the program that read has nothing left to read and the output is complete, unless a write was incomplete
  (`SyncIoTail.OwnDataIsPrinted`). After an incomplete write the output can be wrong (`SyncIoTail.WrongOutputExample`); it is right whatever
  the last read returns exactly if the bytes after the last whole chunk of the file, if there is one, repeat the beginning of that chunk
  (`SyncIoTail.AlwaysCompleteIff`).
- `threaded_upcased.c` calls setlocale() in every thread, but the locale belongs to the process. A client gets its own
  uppercase in every run exactly if the locales of all clients agree (`UpcaseResults.ThreadsOwnIff`).
- The servers and the client of the upcase programs try once more after the last try they accept: an open that succeeds then is taken for a failure
  (`UpcaseOpening.ClientTooLate`, `UpcaseOpening.ServerTooLate`). Opening succeeds exactly if the other end is open
  at one of the tries before (`UpcasePair.OpenedIffInTime`, `UpcaseOpening.ClientOpensIff`, `UpcaseOpening.ServerOpensIff`).
- When a server gives up, its client can wait for ever (`UpcaseBlocking.StrandedExample`) or end normally without its text
  (`UpcaseBlocking.EndsWithoutOutput`). `UpcaseBlocking.StuckIffStranded` and `UpcaseResults.CompleteIff` say exactly when.
- `threaded_progressbar.c` keeps its total at most 1 and growing only for those who hold the lock. Readers without it can see
  more than 1, with any number of threads (`ProgressBar.ExcessIsSeen`), and then less again; `ProgressBar.ExcessIff` says which steps do that.
- `spl_last.c` reads last_boot_time before it is set when it prints a shutdown that no boot follows, and only then
  (`LastSpec.UnsetBootExample`, `LastSpec.ShutdownLine`).
- `spl_pwd.c` puts dots in front of a path that was cut, but no dot at all when the names that fit fill the buffer
  (`Pwd.DotlessExample`), and only then (`Pwd.CutIsUnique`).
- In `spl_stty.c` a mask with the sign bit ends the scan of its table. With the masks of Linux this makes it impossible to set or show
  "crtscts" (`Stty.CrtsctsExample`). An entry can be set and shown exactly if neither it nor an earlier one has the sign bit
  (`Stty.SettableIffSeen`).

## Model

| member | source | states |
|---|---|---|
| ProdCons.RunKeepsInv | chapter16/pthread_prodcons.c:83-133 | in every run, for any numbers of producers and consumers: each mutex has one owner, the ring holds buf_count unread items, the two counters count the threads that have not signed off, and whoever waits is accounted for by woken or announcing threads |
| ProdCons.NoLostWakeup | chapter16/pthread_prodcons.c:89-131 | while nobody owns buf_mutex, a consumer that waits unsignalled implies that buf_count is at most the number of woken consumers, and a producer that waits unsignalled that the free cells are at most the woken producers |
| ProdCons.DeadlockFree | chapter16/pthread_prodcons.c:83-133 | until all threads have exited, some thread can take a step that is not a spurious wakeup, although the counters are read without their mutex |
| ProdCons.NobodyIsStranded | chapter16/pthread_prodcons.c:97-124 | when every producer and consumer waits or has exited and the exit handshake is not under way, all have exited |
| ProdConsDelivery.RunKeepsDelivery | chapter16/pthread_prodcons.c:62-96 | what was received followed by what is in the buffer is what was added, and each producer has added its items 1, 2, ... in this order |
| ProdConsDelivery.ConsumersLeaveLast | chapter16/pthread_prodcons.c:113-124 | a consumer gives up only when all producers have added all their items, the buffer is empty and everything added was received |
| ProdConsDelivery.ReceivedInOrder | chapter16/pthread_prodcons.c:88-92 | at any time the values received from a producer are its first items, increasing and without gaps |
| ProdConsDelivery.ReceivedAreGets | chapter16/pthread_prodcons.c:69-76 | in every run each consumer received just the values that were the oldest unread ones when it was in get_buffer |
| ProdConsDelivery.ExactlyOnce | chapter16/pthread_prodcons.c:83-133 | when all threads have exited, the values received are 1, ..., producers * MaxItems, each once |
| ProdConsProgress.StepSpends | chapter16/pthread_prodcons.c:83-133 | every step lowers a potential (items left, stages of the threads, one last wait per consumer), except that spurious wakeups cost at most 4 and the signalling producer's idle loop nothing |
| ProdConsProgress.BoundedWork | chapter16/pthread_prodcons.c:97-125 | under any schedule the threads take at most producers * (17 * MaxItems + 6) + 14 * consumers + 4 * spurious wakeups steps besides the last producer's idle loop |
| ProdConsProgress.AtMostOneMoreWait | chapter16/pthread_prodcons.c:111-125 | once producer_count is 0 a consumer enters pthread_cond_wait at most once more, and only if it had read the count before |
| ProdConsProgress.ProgressIsPossible | chapter16/pthread_prodcons.c:100-125 | until all have exited, a productive step is possible now or after one idle step of the last producer |
| ProdConsFairness.IdleLoopEnds | chapter16/pthread_prodcons.c:100-102 | under a fair scheduler the signalling loop of the last producer is interrupted again and again until all have exited |
| ProdConsFairness.EverybodyFinishes | chapter16/pthread_prodcons.c:83-133 | in every infinite run in which a thread that stays runnable gets to run and spurious wakeups come to an end, all producers and consumers exit |
| CircularArray.WriteKeepsContents | chapter16/pthread_prodcons.c:64-65 | writing at rear with a free cell leaves every unread value alone |
| CircularArray.AdvanceAppends | chapter12/shm_producer.c:29-30 | advancing rear appends the cell's value to the unread values |
| CircularArray.AdvanceRemoves | chapter12/shm_consumer.c:31-32 | the cell at front is the oldest unread value, and advancing front removes it |
| Buffers.BoundedBuffer.constructor | chapter16/pthread_prodcons.c:52-59 | front, rear and count start at an empty queue |
| Buffers.BoundedBuffer.AddBuffer | chapter16/pthread_prodcons.c:62-67 | in place: the item is appended to the queue; the new cells and indices are those of the step relation |
| Buffers.BoundedBuffer.GetBuffer | chapter16/pthread_prodcons.c:69-76 | in place: returns and removes the oldest item |
| Buffers.SharedBuffer.constructor | chapter12/shm_consumer.c:91-92 | the shared buffer starts empty |
| Buffers.SharedBuffer.AddNext | chapter12/shm_producer.c:29-30 | the critical section of add_next appends to the unread values |
| Buffers.SharedBuffer.GetNext | chapter12/shm_consumer.c:31-32 | the critical section of get_next returns and removes the oldest unread value |
| ShmBuffer.RunKeepsInv | chapter12/shm_producer.c:25-33 | in every run of any numbers of processes the semaphores count what they stand for and the ring holds exactly the values added and not taken |
| ShmBuffer.ProducerAlone | chapter12/shm_producer.c:28-31 | a producer inside its critical section is alone there among all processes |
| ShmBuffer.ConsumerAlone | chapter12/shm_consumer.c:30-33 | so is a consumer |
| ShmBuffer.ClaimsAreBacked | chapter12/shm_consumer.c:26-36 | a process that has passed its first wait finds a free cell, or an unread value: no unread cell is overwritten and no empty one read |
| ShmBuffer.StepRefinesFifo | chapter12/shm_producer.c:25-33 | every step is an enqueue, a dequeue or a stutter of an atomic FIFO of BUF_SIZE values; ShmDelivery says whose values these are |
| ShmBuffer.RunRefinesFifo | chapter12/shm_consumer.c:26-36 | every run is a run of that FIFO from empty, and the values taken are always a prefix of the values added |
| ShmBuffer.SlotsConserved | chapter12/shm_producer.c:27-32 | emptybuf_count + filledbuf_count + processes between first wait and last post = BUF_SIZE |
| ShmBuffer.StuckOnlyWhenFullOrEmpty | chapter12/shm_consumer.c:26-36 | when no process inside an operation can move, either the buffer is empty and only consumers wait, or it is full and only producers do |
| ShmDelivery.AddedAreCalls | chapter12/shm_producer.c:25-33 | in every run the values that a producer added, in order, and the argument of its call under way are the arguments of all its calls of add_next |
| ShmDelivery.TakenWasPassed | chapter12/shm_producer.c:29 | every value taken was passed to an earlier call of add_next |
| ShmDelivery.TakenAreReturned | chapter12/shm_consumer.c:26-36 | the values that a consumer took, in order, are what its calls of get_next returned and the one about to be returned |
| ShmDelivery.AddTakesSevenSteps | chapter12/shm_producer.c:25-33 | every call of add_next ends after seven steps of its producer |
| ShmDelivery.GetTakesSevenSteps | chapter12/shm_consumer.c:26-36 | every call of get_next ends after seven steps of its consumer and returns one value |
| Segments.SegmentsCover | chapter15/pthread_create_demo2.c:175-177 | the segments follow each other without gap or overlap from 0 to size - 1, for every size >= 0 and n >= 1 |
| Segments.SegmentsBalanced | chapter15/pthread_create_demo2.c:175-177 | their lengths are size / n or one more |
| Segments.SegmentSumsAddUp | chapter16/vmem_usage.c:170-175 | the sums of the segments add up to the sum of the array |
| Segments.AddSegment | chapter15/pthread_create_demo2.c:107-118 | a thread's loop leaves the sum of its segment in its cell and changes no other cell |
| Segments.CollectTotal | chapter15/pthread_create_demo2.c:189-193 | main's last loop computes the sum of the whole array |
| Reduction.RoundKeepsTotal | chapter16/vmem_usage.c:136-140 | one round, with the odd cell added to cell 0, keeps the sum of the cells in use |
| Reduction.RunKeepsInv | chapter16/vmem_usage.c:117-144 | in every run each thread's cell holds the value that the rounds it completed should have produced |
| Reduction.RoundsKeepTotal | chapter16/vmem_usage.c:129-141 | after any number of rounds the cells in use sum to the sum of the array |
| Reduction.SumIsRight | chapter16/vmem_usage.c:147-191 | for any n >= 1, any array and any interleaving, partial_sum[0] is the sum of the array when all threads have exited |
| Reduction.StableCell | chapter16/vmem_usage.c:136-140 | within a phase nobody writes a cell of the upper half or the odd cell |
| Reduction.NoRace | chapter16/vmem_usage.c:137-140 | no cell that one thread reads from another is written in the same phase |
| Reduction.SameBarrierCalls | chapter16/vmem_usage.c:130-134 | all threads return from the barrier equally often |
| Reduction.NobodyStranded | chapter16/vmem_usage.c:130-142 | until all have exited some thread can take a step: nobody is left at the barrier |
| Reduction.RunsAreBounded | chapter16/vmem_usage.c:125-142 | every schedule ends after at most n * (6n + 7) + size steps |
| Reduction.HalvingKeepsTotal | chapter16/vmem_usage.c:136-140 | adding the two halves of a sequence and its odd element keeps the sum |
| Reduction.ReduceRound | chapter16/vmem_usage.c:136-140 | one round in place keeps the sum of the cells in use |
| Reduction.ReduceInPlace | chapter16/vmem_usage.c:129-141 | the rounds in place, with the threads of each phase one after the other, leave the sum in cell 0 |
| FileTree.ShallowTree | chapter07/spl_du1.c:69-73 | no visit exceeds MAXDEPTH exactly if the tree is at most MAXDEPTH levels high |
| FileTree.OwnIsKilobytes | chapter07/spl_du1.c:80-82 | the usage of an entry is its 512-byte blocks in whole kilobytes |
| Du1.WalkTree | chapter07/spl_du1.c:80-127 | walking a subtree adds its size to one cell, leaves the other cells alone and prints for each entry the recursive sum over its subtree, provided deeper cells are zero |
| Du1.DiskUsage.FileUsage | chapter07/spl_du1.c:53-141 | the callback in place does the specified accounting, or stops the walk at MAXDEPTH |
| Du1.DiskUsage.Walk | chapter07/spl_du1.c:144-167 | one argument of main: the walk succeeds exactly for trees of at most MAXDEPTH levels and then prints each entry with the usage of its whole subtree |
| Du2.WalkTree | chapter07/spl_du2.c:100-178 | walking a subtree counts what the table lets through, prints the corresponding lines and keeps every cell deeper than prev_level at zero, also in the branch that assigns no cell |
| Du2.DiskUsage.WasVisited | chapter07/spl_du2.c:59-63 | true exactly if the product of inode and device, modulo 2^64, was inserted before |
| Du2.DiskUsage.MarkVisited | chapter07/spl_du2.c:65-69 | inserts that product |
| Du2.DiskUsage.FileUsage | chapter07/spl_du2.c:71-182 | the callback in place does the specified accounting, or stops the walk |
| Du2.DiskUsage.Walk | chapter07/spl_du2.c:185-213 | one argument of main: reset, walk, and the listing of the counted entries |
| Du2Accuracy.CountedMeansNewKey | chapter07/spl_du2.c:106-111 | an entry is counted unless an earlier one that was looked up has its product |
| Du2Accuracy.AccurateIffKeysDistinct | chapter07/spl_du2.c:59-182 | the listing counts each multiply linked file once, where it is met first, if and only if no two different files that are looked up share a product |
| Du2Accuracy.AccurateOnOneDevice | chapter07/spl_du2.c:59-63 | on one device, with products below 2^64, the listing is right |
| Du2Accuracy.SharedKeyLosesFile | chapter07/spl_du2.c:61-67 | of two different files that share a product, the one that is met later is not counted under any of its names, so the listing is wrong |
| Du2Accuracy.SharedKeyExample | chapter07/spl_du2.c:61-67 | a tree in which a file is neither printed nor added to the total |
| Du2Accuracy.AgreesWithDu1 | chapter07/spl_du2.c:71-182 | spl_du2 prints what spl_du1 prints, line for line, if and only if no two entries that are looked up share a product |
| Wtmp.Reader.GetPrev | chapter05/spl_last.c:72-121 | every call returns the last record not returned yet and repositions the descriptor to saved_offset, until there is none; then finished is set |
| Wtmp.Reader.ReadFirst | chapter05/spl_last.c:299-305 | main's first read returns the first record and disturbs nothing |
| Wtmp.RecordsOfConcat | chapter05/spl_last.c:72-121 | on a file of n whole records the records returned are these n |
| LastSpec.SavedIsPending | chapter05/spl_last.c:307-399 | the list always holds, in chronological order, exactly the logouts with a line and without an intervening login on that line, boot or shutdown |
| LastSpec.ClassifyIs | chapter05/spl_last.c:313-318 | a record is taken for a shutdown exactly if its line begins with a tilde and its user with "shutdown" |
| LastSpec.FirstMatchIsNearest | chapter05/spl_last.c:347-359 | the first match in the list is the nearest later logout on the line, and there is a match exactly if there is one |
| LastSpec.MatchedLogin | chapter05/spl_last.c:343-358 | the first line printed for a login ends at the nearest later logout on its line before the next boot or shutdown, and its length is the difference of the times |
| LastSpec.LastShutdownKnown | chapter05/spl_last.c:336-337 | last_shutdown_time is positive exactly if a shutdown follows |
| LastSpec.UnmatchedLogin | chapter05/spl_last.c:360-375 | without such a logout one line is printed, "gone" if a shutdown follows and "still logged in" if not |
| LastSpec.ShutdownExample | chapter05/spl_last.c:313-318 | a login before a shutdown on the line "~" is listed as gone |
| LastSpec.TimeDiffIs | chapter05/spl_last.c:129-146 | the days, hours and minutes printed are the length of the session up to the minute, also for times in the wrong order |
| LastSpec.VerdictAccuracy | chapter05/spl_last.c:360-375 | "gone" is never wrong; "still logged in" is right exactly if no boot and no login on the line follows, or a shutdown does |
| LastSpec.CrashExample | chapter05/spl_last.c:326-332 | a session ended by a crash is listed as still logged in |
| LastSpec.PrintedIsOutput | chapter05/spl_last.c:307-399 | the output is what is printed for each record, last record first |
| LastSpec.ListedIff | chapter05/spl_last.c:325-393 | logins and boots are listed, shutdowns when asked for, and nothing else |
| LastSpec.EveryLoginIsListed | chapter05/spl_last.c:343-376 | every login of the file is in the output: first with the nearest later logout on its line if there is one, and with one line without an end time if not; its lines stand together, and there are several exactly if two logouts on its line are pending |
| LastSpec.LinesOfLogin | chapter05/spl_last.c:348-359 | a login is printed once for each pending logout on its line, and more than once exactly if there are two |
| LastSpec.LinesInOrder | chapter05/spl_last.c:348-359 | these lines follow each other in the order of the logouts |
| LastSpec.ListedTwiceExample | chapter05/spl_last.c:348-359 | a login with two logouts on its line is listed twice |
| LastSpec.BootLine | chapter05/spl_last.c:326-331 | a boot's line ends at the next shutdown; "still running" is printed exactly if none follows, and is right exactly if no boot follows either |
| LastSpec.CrashedBootLine | chapter05/spl_last.c:326-331 | when another boot comes before the next shutdown, the line says "still running" or ends at the shutdown of a later run |
| LastSpec.CrashedBootExample | chapter05/spl_last.c:326-331 | a boot that a crash and another boot follow is printed as still running |
| LastSpec.LastBootKnownIff | chapter05/spl_last.c:329 | last_boot_time is the time of the next boot, and unset exactly if no boot follows |
| LastSpec.ShutdownLine | chapter05/spl_last.c:336-342 | the line for a shutdown ends at the next boot, and at an unset time exactly if there is none |
| LastSpec.UnsetBootExample | chapter05/spl_last.c:338-339 | a file that ends with a shutdown is printed with an unset time |
| Last.UtList.Save | chapter05/spl_last.c:200-218 | puts a record at the front of the doubly linked list, which stays well formed |
| Last.UtList.Delete | chapter05/spl_last.c:220-230 | unlinks any node of the list and leaves the others in order |
| Last.UtList.MatchLogin | chapter05/spl_last.c:347-359 | prints a session for every saved logout on the line, deletes exactly these, and says whether there was one |
| Last.UtList.Erase | chapter05/spl_last.c:232-243 | the walk over the list ends and the list is empty |
| Last.HandleRecord | chapter05/spl_last.c:319-393 | one pass of the switch does to list, times and output what the specification says |
| Last.ListSessions | chapter05/spl_last.c:302-400 | reading the file backwards prints the specified lines for its records; a file without a whole record is a fatal error |
| AioCopy.RunKeepsInv | chapter17/cp_aio.c:89-127 | in every run, for every pattern of read sizes, completions and write results, the offsets, buffers and flags fit together |
| AioCopy.BuffersNeverCollide | chapter17/cp_aio.c:107-113 | while write() is at work its buffer is not the one being read into, and it holds the chunk as it was read |
| AioCopy.PrefixAtLoopHead | chapter17/cp_aio.c:102-110 | at the loop head a read is under way, complete or announced (no completion is lost), and the target is the source up to aio_offset exactly if no incomplete write was passed over |
| AioCopy.CopyIsExactIff | chapter17/cp_aio.c:102-127 | at exit the target is the source if and only if no incomplete write was passed over and the last read was at the end of the file |
| AioCopy.CleanCopyIsExact | chapter17/cp_aio.c:105-125 | if errno is still 0 and the last aio_return was 0, the target is the source, as after the plain copy |
| AioCopy.FailsIff | chapter17/cp_aio.c:114-122 | a step fails exactly if it is the check after write() and finds an errno other than 0 and EINTR, or errno 0 and a short write |
| AioCopy.FailureHasCause | chapter17/cp_aio.c:113-122 | in every run a failure follows a write() that had just failed in this way or was short |
| AioCopy.SmoothCopyIsExact | chapter17/cp_aio.c:102-127 | in a run in which no call fails and no write is short the copy never fails, and it is exact when it ends |
| AioCopy.SmoothCopyEnds | chapter17/cp_aio.c:102-127 | every such run can be continued to the end of the copy, with the target equal to the source |
| AioCopy.NeverStuck | chapter17/cp_aio.c:102-127 | between start and end some step that changes the state is always possible |
| AioCopy.BoundedWork | chapter17/cp_aio.c:102-127 | apart from idle turns of the loop and partial stores of the reader a run takes at most 10 * size + 8 steps |
| AioCopy.FailedReadEndsCopy | chapter17/cp_aio.c:105-125 | if the first read fails, any file is copied to an empty one without any error |
| AioCopy.ByteCanBeLost | chapter17/cp_aio.c:113-115 | if write() fails with EINTR, which SA_RESTART rules out for SIGIO on files that honour it, a one-byte file is copied to an empty one without any error |
| AioCopy.ShortWriteIsPassedOver | chapter17/cp_aio.c:113-120 | after such a write a later short write is passed over too: of three bytes one is copied, without any error |
| PlainCopy.CopyFile | chapter04/spl_cp1.c:65-78 | whatever read() and write() return, the target is a prefix of the source; the loop ends without a fatal error exactly if all of its calls went well, and then the target is the source |
| SyncIo.RunKeepsInv | chapter11/sync_io_demo.c:53-138 | in every run there is one turn, held by a process or a pending signal, until a signal is delivered outside of pause() |
| SyncIo.MutualExclusion | chapter11/sync_io_demo.c:69-73 | child and parent are never both in their file sections, so the shared offset is never disturbed |
| SyncIo.PrintedIsPrefix | chapter11/sync_io_demo.c:113-138 | the bytes printed are always a prefix of the bytes written, which are the data over and over when writes are complete; at the exit up to the last whole chunk, and all of them if the data fill whole chunks |
| SyncIo.AllPrintedAtExit | chapter11/sync_io_demo.c:126-133 | when the parent exits the child has done its 20 rounds and as many bytes were printed as written; they are the same bytes if the file is a number of whole chunks or the last read was complete, and otherwise exactly if the old bytes in the buffer are the missing ones |
| SyncIoTail.OwnDataIsPrinted | chapter11/sync_io_demo.c:55-70 | with the program's own data and complete writes the output at the exit is the data 20 times, whatever the last read returned |
| SyncIoTail.LastReadDecides | chapter11/sync_io_demo.c:126-131 | before the last read: if it returns n bytes, the output is complete exactly if the bytes after them are in the buffer already |
| SyncIoTail.AlwaysCompleteIff | chapter11/sync_io_demo.c:126-131 | every last read completes the output exactly if the first bytes in the buffer are the missing ones; in a file of at least one chunk, exactly if the bytes after the last whole chunk repeat the beginning of that chunk, in particular if there are none |
| SyncIoTail.WrongOutputExample | chapter11/sync_io_demo.c:69-131 | an incomplete write followed by a last read that returns nothing: the parent exits with wrong bytes printed |
| SyncIo.StuckIffSignalLost | chapter11/sync_io_demo.c:74-80 | before the end the copy can go on if and only if no signal was delivered outside of pause() |
| SyncIo.LostForever | chapter11/sync_io_demo.c:113-138 | after a lost signal the parent never exits |
| SyncIo.FailsIff | chapter11/sync_io_demo.c:71-128 | the processes fail exactly when a write or the last read returns -1 or the read of a chunk returns anything but a whole chunk |
| SyncIoProgress.RunsAreBounded | chapter11/sync_io_demo.c:67-138 | every run ends: it has at most 20 steps for each character of the data and 401 more |
| SyncIoProgress.EndsWell | chapter11/sync_io_demo.c:83-134 | when nothing can go on, both processes have exited, unless a signal was lost or a call failed |
| SyncIo.SignalCanBeLost | chapter11/sync_io_demo.c:75-76 | the first signal can already be lost |
| UpcaseText.SendLine | chapter14/upcase.c:174-180 | the inner loop sends the line up to its first NUL in pieces of at most PIPE_BUF - 1 characters |
| UpcaseText.SendAll | chapter14/upcase.c:166-198 | the two loops send exactly the specified chunks |
| UpcaseText.LineLengthIff | chapter14/upcase.c:169 | a line ends with the first newline, with the input, or when the buffer is full |
| UpcaseText.RequestsByLine | chapter14/upcase.c:167-180 | the input is sent line by line, each up to its first NUL |
| UpcaseText.PiecesAreFull | chapter14/upcase.c:176-178 | of the pieces of a line all but the last have PIPE_BUF - 1 characters |
| UpcaseText.RequestsAreChunks | chapter14/upcase.c:176-180 | every chunk is non-empty and shorter than PIPE_BUF |
| UpcaseText.RequestsCoverIff | chapter14/upcase.c:167-180 | the chunks together are the input if and only if it holds no NUL |
| UpcaseText.UpcaseInPlace | chapter14/upcased.c:163-164 | the conversion loop uppercases the first nbytes of the buffer and nothing else |
| UpcasePair.ClientKeepsPair | chapter14/upcase.c:155-199 | every step of a client keeps the lock-step with its server, including failed opens, SIGPIPE and partial reads |
| UpcasePair.HandlerKeepsPair | chapter14/upcased.c:140-190 | so does every step of process_client, including the retries and giving up |
| UpcaseBlocking.OneChunkPerClient | chapter14/upcase.c:180-193 | in every run with any number of clients at most one chunk of each is under way, in one of its two FIFOs or in the buffer of its own worker, and none while the client is not waiting |
| UpcaseBlocking.StuckIffStranded | chapter14/upcased.c:161-188 | in every run a served client that has not ended can take a step, or its worker can, unless the worker gave up and the client waits for an end of file that cannot come |
| UpcaseBlocking.WorkerStuckIff | chapter14/upcased.c:148-161 | the worker of a client that has ended goes on to its own end, unless the client gave up before it had opened its FIFO |
| UpcaseBlocking.StrandedForever | chapter14/upcase.c:184-193 | such a client waits for ever, whatever the others do |
| UpcaseBlocking.StrandedExample | chapter14/upcased.c:166-177 | with either server a client can be left waiting |
| UpcaseBlocking.EndsWithoutOutput | chapter14/upcased.c:174-177 | a client of the forked server can end normally without any output |
| UpcasePair.OpenedIffInTime | chapter14/upcase.c:155-164 | a series of tries succeeds if and only if the other end is open at one of the first MAXTRIES of them, and is given up exactly after one more |
| UpcasePair.OpenFifo | chapter14/upcased.c:166-177 | the retry loop reports success under just this condition, and failure with an open descriptor exactly when the other end is open at the last try only |
| UpcasePair.ClientTries | chapter14/upcase.c:155-164 | a client's step makes one such try |
| UpcasePair.HandlerTries | chapter15/threaded_upcased.c:138-150 | so does a step of either server, with its own number of tries |
| UpcaseOpening.ClientOpensIff | chapter14/upcase.c:155-164 | in every run a client gets to send if and only if the server has its FIFO open at one of the first MAXTRIES tries |
| UpcaseOpening.ServerOpensIff | chapter14/upcased.c:166-177 | in every run a server answers a chunk if and only if the client is reading at one of its first tries for this chunk |
| UpcaseOpening.ClientTooLate | chapter14/upcase.c:160-164 | a client can give up although the server has opened its FIFO |
| UpcaseOpening.ServerTooLate | chapter14/upcased.c:174-177 | a server can give up although the client is reading, and the chunk is lost |
| UpcaseProgress.ClientFailsIff | chapter14/upcase.c:155-180 | in every run a client gives up exactly at its last try to open the FIFO, or when it has a chunk to send and its worker process has given up |
| UpcaseProgress.WorkerFailsIff | chapter15/threaded_upcased.c:138-157 | a worker gives up exactly at its last try to open the FIFO for an answer, or when its client gave up before the worker opened the other FIFO |
| UpcaseProgress.BoundedWork | chapter14/upcase.c:155-199 | whatever the others do, a client and its worker take at most two steps for each character of its text, the number of tries and twelve more for each chunk, and thirteen besides |
| UpcaseProgress.CopiesAreReleased | chapter15/threaded_upcased.c:163-165 | the copy of a message is released when its worker ends normally |
| Upcase.RunKeepsInv | chapter15/threaded_upcased.c:234-246 | for any number of clients, forked or threaded, every pair stays in lock-step whatever the others do |
| UpcaseResults.OwnMessage | chapter15/threaded_upcased.c:237-245 | every live worker has a copy of its own client's message at an address of its own, while main overwrites its variable |
| UpcaseResults.OutputIsUpper | chapter15/threaded_upcased.c:133-136 | the output is the beginning of the text, each character converted by the client's locale or, with threads, by some client's locale |
| UpcaseResults.OutputIsPrefix | chapter14/upcased.c:140-190 | the output is a prefix of the uppercase of the client's own NUL-free input, with the forked server always, with threads if the locales agree |
| UpcaseResults.CompleteIff | chapter14/upcased.c:169-177 | a client that ends normally got all of its text exactly if its server did not give up; with threads always |
| UpcaseResults.WholeInput | chapter14/upcase.c:166-200 | when its server did not time out, a client that ends printed its whole input in uppercase |
| UpcaseResults.SharedLocaleExample | chapter15/threaded_upcased.c:127-136 | a client of the threaded server can be answered by another client's locale |
| UpcaseResults.ThreadsOwnIff | chapter15/threaded_upcased.c:127-136 | a client of the threaded server gets its own uppercase in every run if and only if all locales agree with its own |
| ProgressBar.WorkIsConserved | chapter16/threaded_progressbar.c:81-95 | fraction_completed is always the sum of computedby and of the work not yet recorded, and no share is negative |
| ProgressBar.ExcessOnlyBeforeCut | chapter16/threaded_progressbar.c:84-88 | the total is at most 1 whenever the lock is free, and above 1 only if its holder is about to cut the excess |
| ProgressBar.ExcessIff | chapter16/threaded_progressbar.c:84-88 | a step takes the total above 1 exactly if it adds more than is missing, and the total falls exactly when an excess is cut |
| ProgressBar.ExcessIsSeen | chapter16/threaded_progressbar.c:81-88 | with any number of threads a total above 1 can be seen without the lock |
| ProgressBar.TotalGrows | chapter16/threaded_progressbar.c:81-90 | from a value of at most 1 the total never falls |
| ProgressBar.SharesAddUpToOne | chapter16/threaded_progressbar.c:81-96 | when all threads have exited, the recorded shares sum to exactly 1, even if several passed the unlocked test late |
| ProgressBar.ExitsIff | chapter16/threaded_progressbar.c:81 | a thread ends at its test exactly if the total that it sees is at least 1 |
| ProgressBar.EndsAfterOwnSteps | chapter16/threaded_progressbar.c:81-95 | once the total is 1 every thread ends after at most six more steps of its own |
| ProgressBar.EverybodyEnds | chapter16/threaded_progressbar.c:81-96 | from then on all n threads end after at most 6 * n steps under every schedule |
| ProgressBar.CanEnd | chapter16/threaded_progressbar.c:81-96 | every run in which the total is 1 can be continued until all threads have ended, with recorded shares of 1 |
| ProgressBar.RunsAreBounded | chapter16/threaded_progressbar.c:81-96 | if random() never makes less than some positive e of work, every run has at most 6 / e + 8 * n + 1 steps |
| ProgressBar.NeverStuck | chapter16/threaded_progressbar.c:81-96 | as long as a thread has not ended some thread can take a step |
| Pwd.GetFilename | chapter07/spl_pwd.c:65-102 | returns the name of the first entry with the given inode and device, or none |
| Pwd.FileNameIsFirst | chapter07/spl_pwd.c:81-96 | the name found is that of the first match |
| Pwd.FileNameMissing | chapter07/spl_pwd.c:98-101 | there is no name exactly if no entry matches |
| Pwd.Prepend | chapter07/spl_pwd.c:140-147 | writes a slash and the name to the left of the path, inside the buffer |
| Pwd.FillWithDots | chapter07/spl_pwd.c:134-136 | fills everything to the left of the path with dots |
| Pwd.PrintPath | chapter07/spl_pwd.c:105-152 | the slash-joined path is printed if and only if it is known up to the root and has at most PATH_MAX - 1 characters; if what is known is longer, PATH_MAX - 1 characters are printed: dots and as many of the last names as fit |
| Pwd.FoundIsTruePath | chapter07/spl_pwd.c:122-149 | for directories each of which lists the next under one name, the names found are these names, up to the root |
| Pwd.FoundLeads | chapter07/spl_pwd.c:122-149 | whatever the directories list, the names found lead step by step to the last directory |
| Pwd.DotlessExample | chapter07/spl_pwd.c:134-138 | a path of ordinary names is cut to one that begins with a slash |
| Pwd.CutIsUnique | chapter07/spl_pwd.c:134-138 | the cut is determined by the names, and there are dots exactly if the names that fit leave room |
| Stty.RShift | chapter18/spl_stty.c:188-196 | ends for every non-zero mask and returns the position of its lowest bit |
| Stty.SetSwitchInMap | chapter18/spl_stty.c:440-454 | sets or clears the mask of the first entry with the name, before the first negative mask, and says whether there is one |
| Stty.Termios.SetSwitch | chapter18/spl_stty.c:457-486 | changes the settings in place as the name demands, or leaves them and returns FALSE |
| Stty.ShowFlagset | chapter18/spl_stty.c:252-263 | shows the entries before the first negative mask |
| Stty.DisplayIsActive | chapter18/spl_stty.c:252-263 | one line for each such entry, with its state |
| Stty.ShowDelay | chapter18/spl_stty.c:265-273 | shows the delay's bits shifted as far as the mask, from which they can be recovered |
| Stty.FlagIsResolved | chapter18/spl_stty.c:457-474 | with distinct names every listed flag is enabled by its name and disabled by a dash and its name |
| Stty.DelayIsResolved | chapter18/spl_stty.c:461-484 | and every listed delay is set by its name, "-tabs" included |
| Stty.ResolveIff | chapter18/spl_stty.c:457-485 | a word is a switch exactly if it names a listed flag, and a delay exactly if it names a listed delay and no flag |
| Stty.FirstTableDecides | chapter18/spl_stty.c:467-474 | of the tables for output, input, local and control flags the first that has the word decides |
| Stty.FoundIsFirst | chapter18/spl_stty.c:443-452 | of several entries with the name the first is taken |
| Stty.SwitchIsShown | chapter18/spl_stty.c:440-475 | with distinct names and non-zero disjoint masks, typing the name of a listed flag, or a dash and the name, has it shown as requested and every other flag and delay as before |
| Stty.DelayIsShown | chapter18/spl_stty.c:476-484 | typing the name of a listed delay has it shown with exactly its value, which its shift does not shorten, and every flag and other delay as before |
| Stty.DashIsIgnoredForDelays | chapter18/spl_stty.c:461-484 | a dash before a delay's name still sets the delay |
| Stty.ActiveIffSeen | chapter18/spl_stty.c:255 | an entry is shown if and only if no mask up to and including its own has the sign bit |
| Stty.FoundIffSeen | chapter18/spl_stty.c:443-452 | a name can be set if and only if an entry that a scan gets to has it |
| Stty.SettableIffSeen | chapter18/spl_stty.c:440-454 | with distinct names an entry can be set, and is shown, if and only if neither it nor an earlier entry has a mask with the sign bit |
| Stty.CrtsctsExample | chapter18/spl_stty.c:109-119 | with the masks of Linux "crtscts" can be neither set nor shown, and the seven flags before it can be shown |
| SttyTables.LinuxTablesFit | chapter18/spl_stty.c:53-139 | with the masks of Linux the program's tables have the distinct names and disjoint masks that setting and showing rely on |
| SttyTables.TabsExample | chapter18/spl_stty.c:461-484 | with the program's tables "-tabs" clears the field for tabs and "tabs" fills it |

## Left out

- Threads and processes: the loops of concurrent programs are steps of a state machine, not Dafny methods, because Dafny methods run alone; only the code inside critical sections is also given in place. The in-place reduction runs the threads of a phase one after the other.
- Memory model: every access to shared data is atomic and in one global order, also the unlocked reads of the counters and of the progress total.
- Machine integers: counters, sums, sizes and index products are unbounded; only the hash value of `spl_du2.c` wraps at 2^64, and get_buffer's narrowing of long to int is not modelled.
- Floating point: `ProgressBar` uses real numbers and does not model rounding.
- The kernel: nftw is the post-order sequence of visits of an arbitrary tree, an asynchronous read completes at any time with any permitted size, FIFOs are byte queues with one reader and one writer each. Calls that fail for reasons other than those modelled end the program.
- EINTR on semaphores, barriers and mutexes, cancellation, and failing thread creation in `pthread_prodcons.c`, `vmem_usage.c` and `threaded_progressbar.c`.
- Start-up order of the shared-memory programs: semaphores and indices are initialised before any producer step.
- The start of the upcase server: a client finds the public FIFO with a reader, and its message arrives whole.
- common/hash.h: the hash table is a set of key values that never fails to insert.
- `sync_io_demo.c`: both processes have installed their handlers before the first signal.
- Liveness of `threaded_progressbar.c` while random() returns 0 for ever.
- Fairness is assumed only for `pthread_prodcons.c`; for the other concurrent programs it is proved when they are stuck and, except for the shared-memory buffer, whose processes run for ever, that their work is bounded.
- `cp_aio.c` after the loop, and errno set by the library functions in between (aio_return, printf).
- The upcase servers: setlocale() is taken to know the client's locale; the programs report one that it does not know and keep the old one. Opening the FIFO of a client that has already removed it is modelled as the worker giving up.
- `spl_last.c`: the text of the output lines (strftime, user and host columns) and strncmp's limit on the length of ut_line; an unset last_boot_time is kept as an unknown end time.
- `spl_pwd.c`: the text of error messages; directories that cannot be opened.
- `spl_stty.c`: baud rates, control characters, window size and mask values other than those of Linux, since the system's headers define them; flag words are sets of bit positions, so numbers are compared bit by bit.
- `pthread_bcast_demo.c`, `ulogger.c`, `spl_top.c`, `displayvm.c` and the remaining demos, which hold no comparable property.
