# A verified model of the xv6 MLFQ kernel's hard core

This project models six parts of an xv6 kernel whose scheduler is a multi-level feedback queue,
and proves what they are for:

- **Scheduler** (`srcs/proc.c`, `srcs/trap.c`): the process table, four ready queues as linked
  lists, timer accounting, demotion, aging, fork, exit, wait, sleep, wakeup and kill.
- **Redo log** (`srcs/log.c`): operations, group commit, crash and recovery.
- **Buffer cache** (`srcs/bio.c`): the LRU ring, recycling, pinning of dirty buffers.
- **Files** (`srcs/fs.c`, `srcs/file.c`): block allocation, the direct/indirect map, truncation,
  reading, writing, and the cutting of writes into log transactions.
- **User-level allocator** (`srcs/umalloc.c`): the circular free list.
- **Pipe** (`srcs/pipe.c`): the ring buffer with wrapping counters.

## How it is built

Each part has two layers. The first is a value-level machine: states as datatypes, steps as
functions, runs as lists of steps, and the theorems about all runs. The second is the code's own
form: classes with arrays and pointer loops, whose methods are proved to take the abstract state
exactly where the machine's function takes it. So the theorems about runs are theorems about what
the code does.

| part | machine and theorems | code |
|---|---|---|
| scheduler | `SchedTable`, `SchedSteps`, `SchedRuns`, `SchedEffects`, `SchedTheorems`, `SchedExamples`, `SchedLinks` | `SchedHeap` |
| log | `LogDisk`, `LogMachine`, `LogTheorems`, `LogCommit`, `LogSpace`, `LogBuffers` | `LogHeap` |
| cache | `CacheModel`, `CacheRuns`, `CacheUse`, `CacheOps`, `CacheRing` | `CacheHeap` |
| files | `FsBits`, `FsModel`, `FsFiles` | `FsHeap`, `FileOps` |
| allocator | `FreeList`, `HeapMemory` | `Umalloc` |
| pipe | counter lemmas in `Pipe` | class `Pipe` in `Pipe` |

Modelling choices. A pointer to a process or a buffer is its slot number. A step of the scheduler
is one critical section under `ptable.lock`, and steps of different processes interleave freely;
fork is three steps (claim a slot, then complete or give up) and wait is one step per turn of its
loop. `ticks` wraps at 2^32; pids and the per-process counters are unbounded integers. A step of
the log is one locked section or one block write, and a crash may come between any two steps. The
log block is 128 words, the file block 512 bytes. The arrays of `FsHeap` are what `bread` returns
and what `log_write` keeps, so the cache and log results apply below them; the free map is held as
bytes and the inodes decoded. `sbrk` is modelled down to its byte argument; whether the kernel has
memory for it is a parameter. A kernel panic is
either excluded by a proof, or a precondition, or (a full disk) a result of its own.

## Where the code and its description differ

Each of these has an exact condition, proved for all inputs, and a run or an input that fails it.

- `README.md:135` promises FIFO order among processes with equal I/O time. `srcs/proc.c:107` puts a
  process behind another of equal I/O time exactly when the other was not queued at an earlier tick
  count (`QueuesBehindIff`, `FifoIff`). A run from boot queues the newer in front (`NewestGoesFirst`).
- `README.md:146` promises that init and shells are always at level 3. Over a run from boot that
  holds exactly when no step is a fork by another process than init into a former shell's slot, whose
  type is not reset, or a `set_proc_info` by init or a shell to another level (`SpecialAlwaysIff`).
  Runs from boot break it both ways (`ShellBelowLevel3`, `ShellLowersItself`).
- A timer interrupt charges every RUNNING process but tests the quantum only of the interrupted
  one. Levels follow CPU time on one CPU (`LevelFollowsCpuTime`). On another CPU they do exactly
  until a quantum of level 0, 1 or 2 runs out (`OtherCpuMissesQuantum`), as it does in a run from
  boot (`QuantumRunsOutUnnoticed`).
- `set_proc_info` accepts any level. The table survives exactly the four that have a queue
  (`SetInfoKeepsInvIff`).
- `begin_op`'s reservation rules out the panic in `log_write` exactly from `log.size >= LOGSIZE + 1`
  on. `srcs/mkfs.c:25` makes the log one block smaller (`ReservationHolds`, `SmallLogPanics`).
- `log_write` tests for space before it looks for the block, so rewriting an already logged block
  panics exactly when the log is full (`AbsorptionPanicsWhenFull`, `FullLogPanics`).
- `commit` finds a buffer exactly when the pinned blocks and the clean buffers others hold are fewer
  than NBUF (`BufferLeftIff`), and NBUF equals LOGSIZE. So no log size is safe: a log of at most
  LOGSIZE blocks lets `log_write` panic, a larger one lets `commit` run out of buffers
  (`EitherPanics`).
- `malloc` returns room for the payload exactly for requests of at most 2^31 - 16 bytes (`Malloc`).
  Above that the byte count given to `sbrk` is negative as an int (`ByteCountTurnsNegative`) or
  wraps around to 0 (`ByteCountWraps`), or the number of units itself wraps around (`RoundingWraps`).

## Model

| member | source | states |
|---|---|---|
| `SchedTable.AddToQueueKeepsQueues` | srcs/proc.c:88-126 | inserting a process not yet queued keeps all four lists well-formed, disjoint and sorted, adds exactly that process, and disturbs no other list |
| `SchedTable.InsertSorted` | srcs/proc.c:102-108 | the insertion point found by the walk keeps the list sorted by I/O time and entry time, descending |
| `SchedTable.RemoveFromQueueKeepsQueues` | srcs/proc.c:130-156 | removal takes out exactly the one process and keeps order and disjointness |
| `SchedTable.QueueingInitBoots` | srcs/proc.c:356-399 | the table userinit leaves is the empty one with init queued at level 3 |
| `SchedLinks.AddRepresents` | srcs/proc.c:88-126 | the pointer assignments of add_to_queue represent the list with the process inserted, links consistent both ways, all other lists untouched |
| `SchedLinks.RemoveRepresents` | srcs/proc.c:130-156 | the pointer assignments of remove_from_queue represent the list without the process, whose own links become null |
| `SchedLinks.RemoveGuardExact` | srcs/proc.c:133-135 | the guard (null links and not the head) is true exactly of processes on no queue |
| `SchedLinks.SpliceBeforeChain` | srcs/proc.c:110-118 | linking in front of a node makes the chain with the node inserted there |
| `SchedLinks.SpliceLastChain` | srcs/proc.c:95-125 | linking at the end makes the chain with the node appended |
| `SchedLinks.SpliceOutChain` | srcs/proc.c:136-155 | unlinking makes the chain without the node |
| `SchedSteps.WakeFromExact` | srcs/proc.c:764-775 | wakeup1 makes RUNNABLE and queues exactly the processes sleeping on the channel, and changes no other entry |
| `SchedSteps.EnqueueKeepsInv` | srcs/proc.c:683-698 | making a process RUNNABLE at its level keeps "queued iff RUNNABLE" and stamps its entry time |
| `SchedSteps.PromoteKeepsInv` | srcs/proc.c:194-203 | a promotion moves one process up one list and leaves the lists of other levels as they are |
| `SchedSteps.AgeListExact` | srcs/proc.c:209-228 | walking a list while promoting from it visits each member once and promotes exactly those due |
| `SchedSteps.AgeLevelsExact` | srcs/proc.c:209-228 | the pass over levels 1..3 promotes nobody twice, though a promoted process lands on another list |
| `SchedSteps.CheckAgingExact` | srcs/proc.c:194-228 | one pass promotes exactly the ordinary processes queued at levels 1..3 with a wait of 250 or more, each by one level; nobody leaves or enters the queues and nobody due is left |
| `SchedSteps.TimerSectionExact` | srcs/trap.c:58-96 | the whole locked timer section acts on every entry as one per-entry rule: count, kill at end time or test the quantum if interrupted, then age |
| `SchedSteps.DispatchExact` | srcs/proc.c:614-653 | a scheduler round takes the head of the first nonempty list off its list and starts it, and changes nothing else |
| `SchedRuns.ReparentExact` | srcs/proc.c:523-530 | exit's loop hands exactly its children to init, and leaves init awake if one of them is a zombie |
| `SchedRuns.ExitExact` | srcs/proc.c:492-535 | exit leaves a zombie; every other entry is exactly as before but for the adoption of children, the waking of the parent and of init, and the entry time that waking stamps |
| `SchedRuns.ExitWakes` | srcs/proc.c:492-535 | others change only by adoption and waking, and nobody who should see a zombie stays asleep |
| `SchedRuns.RemoveRunningIsNoop` | srcs/proc.c:515-517 | remove_from_queue on the RUNNING process that exits changes nothing |
| `SchedRuns.KillExact` | srcs/proc.c:790-809 | kill marks the first slot with the pid and queues it if it slept, and changes nothing else |
| `SchedRuns.WakeupExact` | srcs/proc.c:779-784 | wakeup wakes exactly the sleepers on the channel and keeps the queue invariant |
| `SchedRuns.TickExact` | srcs/trap.c:51-56 | a tick advances the wrapping clock and wakes exactly its sleepers |
| `SchedRuns.ForkKeepsInv` | srcs/proc.c:426-486 | completing a fork keeps queues, pids and parents sound |
| `SchedRuns.AllocKeepsInv` | srcs/proc.c:298-351 | claiming a slot gives it a pid no used slot has, and keeps the invariant |
| `SchedRuns.ExitKeepsInv` | srcs/proc.c:492-535 | exit keeps: every started process but init has a live parent, and no parent of a zombie sleeps in wait |
| `SchedRuns.WaitKeepsInv` | srcs/proc.c:540-579 | a turn of wait keeps it too, whether it reaps, fails or sleeps |
| `SchedRuns.SchedulingKeepsInv` | srcs/proc.c:683-809 | tick, timer, dispatch, yield, sleep, wakeup, kill and set_proc_info keep the invariant |
| `SchedRuns.SetInfoKeepsInvIff` | srcs/proc.c:16-42 | set_proc_info, given any level, keeps the invariant iff the level is 0 to 3 |
| `SchedRuns.StepKeepsInv` | srcs/proc.c:426-809 | every step of every process keeps the whole invariant |
| `SchedTheorems.BootInv` | srcs/proc.c:356-399 | the invariant holds when userinit is done |
| `SchedTheorems.RunKeepsInv` | srcs/proc.c:88-809 | in every state of every run the queues are well-formed, disjoint and sorted, queued iff RUNNABLE, pids distinct, parents live |
| `SchedTheorems.StepEntry` | srcs/proc.c:16-809 | level, type and counters of a process change only by the timer step, its own set_proc_info, or the claiming and filling of its slot |
| `SchedEffects.StepEffect` | srcs/proc.c:16-809 | what each step leaves in each field of each entry, told without the step functions: quanta 10, 20, 40 and 80, aging at 250, clock modulo 2^32 |
| `SchedEffects.SleeperWokenIff` | srcs/proc.c:724-784 | after sleep on a channel, a wakeup makes the sleeper RUNNABLE and queued iff it is for that channel |
| `SchedEffects.TickSleeperWoken` | srcs/trap.c:51-56 | a process that sleeps on the ticks is RUNNABLE after the next tick |
| `SchedEffects.YieldRequeues` | srcs/proc.c:683-698 | yield leaves the caller RUNNABLE, queued at its level and newly stamped, and no other entry changed |
| `SchedEffects.WaitOutcomeIff` | srcs/proc.c:540-579 | wait reaps iff there is a zombie child, fails iff there is none and either no child at all or the caller is killed, sleeps iff neither |
| `SchedEffects.ForkGivesChild` | srcs/proc.c:426-486 | the new process has the caller as parent and is queued, and the caller's wait, unless killed, does not report that it has no children |
| `SchedEffects.WaiterIsWoken` | srcs/proc.c:492-579 | a parent asleep in wait is RUNNABLE and queued when a child has exited, and its next turn reaps |
| `SchedEffects.CountersCount` | srcs/proc.c:48-66 | over any run the I/O time of a process that stays asleep, and the CPU time of one that stays RUNNING, grow by exactly the timer steps |
| `SchedEffects.LimitKillsIff` | srcs/trap.c:76-84 | a timer step marks as killed exactly the interrupted process whose CPU time reaches its positive end time |
| `SchedTheorems.PickRefinesScan` | srcs/proc.c:162-172 | the head of the first nonempty list is the best RUNNABLE process of the whole table: lowest level, then longest I/O time, then latest entry; none iff nobody is RUNNABLE |
| `SchedTheorems.DispatchAlwaysRuns` | srcs/proc.c:614-653 | whenever a process is RUNNABLE the scheduler starts one: its guard on state and stack never fails |
| `SchedTheorems.QueuesBehindIff` | srcs/proc.c:88-126 | of equal I/O time, add_to_queue goes behind a queued process iff that one was not queued at an earlier tick count |
| `SchedTheorems.FifoIff` | srcs/proc.c:88-126 | an insertion is FIFO among equal I/O time iff nobody of equal I/O time was queued at an earlier tick count |
| `SchedExamples.NewestGoesFirst` | srcs/proc.c:102-108 | a run from boot after which a process queued later stands in front of one of equal I/O time and level |
| `SchedTheorems.AgingStep` | srcs/proc.c:194-228 | 250 * level - wait of a queued ordinary process falls by exactly one per timer step and moves at no other step |
| `SchedTheorems.AgingCountsDown` | srcs/proc.c:194-228 | over a run that measure counts the timer steps |
| `SchedTheorems.AgingBound` | srcs/proc.c:194-228 | an ordinary process that stays queued from level L is at level 0 after 250 * L timer steps |
| `SchedTheorems.AgingBoundFromBoot` | srcs/proc.c:194-228 | the same from boot on, with no assumption about its wait, if nobody has used set_proc_info |
| `SchedTheorems.RunKeepsWaitsBounded` | srcs/proc.c:194-228 | over such runs no ordinary process below the top has waited 250 ticks |
| `SchedTheorems.SingleCpuRunsOne` | srcs/proc.c:614-653 | with one CPU at most one process is RUNNING in every state of a run |
| `SchedTheorems.LevelFollowsCpuTime` | srcs/proc.c:177-243 | on one CPU an undisturbed ordinary process is at level 0, 1, 2, 3 exactly as its CPU time is below 10, 30, 70 or not, however it sleeps and yields |
| `SchedTheorems.ForkStartsAccounted` | srcs/proc.c:426-486 | a forked process starts in that account iff the caller is not init and the slot was no shell's |
| `SchedTheorems.OtherCpuMissesQuantum` | srcs/proc.c:48-66 | for a process on another CPU an interrupt leaves the level that its CPU time calls for iff it is at level 3 or its quantum does not run out |
| `SchedExamples.QuantumRunsOutUnnoticed` | srcs/trap.c:58-96 | a run from boot with two processes RUNNING after which one has had ten ticks and is still at level 0 |
| `SchedTheorems.StepKeepsSpecialIff` | srcs/proc.c:16-486 | a step keeps "init and shells are at level 3" iff it is neither a fork by another than init into a former shell's slot nor set_proc_info by init or a shell to another level |
| `SchedTheorems.SpecialAlwaysIff` | srcs/proc.c:16-486 | over a run from boot they are at level 3 in every state iff no step is one of those |
| `SchedExamples.ShellBelowLevel3` | srcs/proc.c:426-486 | a run from boot in which a shell's slot is reused by a shell's child, which is then a shell at level 0 |
| `SchedExamples.ShellLowersItself` | srcs/proc.c:16-42 | a run from boot in which a shell takes itself to level 0 |
| `SchedTheorems.WaitReturnsOnce` | srcs/proc.c:540-579 | over a run wait returns each pid at most once, and a returned pid names no process any more |
| `SchedHeap.PTable.constructor` | srcs/proc.c:356-399 | the arrays after boot are the booted table |
| `SchedHeap.PTable.AddToQueue` | srcs/proc.c:88-126 | the loop and pointer writes perform the ordered insertion |
| `SchedHeap.PTable.RemoveFromQueue` | srcs/proc.c:130-156 | the pointer writes perform the removal, or nothing for a process on no queue |
| `SchedHeap.PTable.GetNextProc` | srcs/proc.c:162-172 | the loop returns the head of the first nonempty list |
| `SchedHeap.PTable.Wakeup1` | srcs/proc.c:764-775 | the loop over the table performs the wakeup |
| `SchedHeap.PTable.UpdateAllProcTimers` | srcs/proc.c:48-66 | the loop advances burst and total of RUNNING entries, wait of RUNNABLE ones and I/O time of sleeping ones, by one, where there is a pid, and nothing else |
| `SchedHeap.PTable.DemoteProcess` | srcs/proc.c:177-191 | one entry is demoted, and the lists stay |
| `SchedHeap.PTable.CheckTimeQuantum` | srcs/proc.c:233-243 | the quantum test is applied to one entry |
| `SchedHeap.PTable.PromoteProcess` | srcs/proc.c:194-203 | the promotion, in place |
| `SchedHeap.PTable.AgeList` | srcs/proc.c:213-226 | the walk that edits the list it walks ends and promotes what the list held at its start |
| `SchedHeap.PTable.CheckAging` | srcs/proc.c:209-228 | the three walks together perform the aging pass |
| `SchedHeap.PTable.TimerInterrupt` | srcs/trap.c:58-96 | the locked timer section, in place |
| `SchedHeap.PTable.Tick` | srcs/trap.c:51-56 | the tick, in place |
| `SchedHeap.PTable.Schedule` | srcs/proc.c:614-653 | one scheduler round, in place |
| `SchedHeap.PTable.Yield` | srcs/proc.c:683-698 | yield, in place: the caller is RUNNABLE and on the list of its level |
| `SchedHeap.PTable.Sleep` | srcs/proc.c:724-759 | sleep up to the switch, in place: the caller sleeps on the channel given |
| `SchedHeap.PTable.Kill` | srcs/proc.c:790-809 | kill, in place; 0 iff some slot has the pid |
| `SchedHeap.PTable.SetProcInfo` | srcs/proc.c:16-42 | the caller's own fields are set, to any level, and nothing else; the lists stay valid for levels 0 to 3 |
| `SchedHeap.PTable.AllocProc` | srcs/proc.c:298-351 | claims the first UNUSED slot, or reports that there is none |
| `SchedHeap.PTable.ForkFail` | srcs/proc.c:437-442 | gives the slot back |
| `SchedHeap.PTable.Fork` | srcs/proc.c:426-486 | completes the fork on the claimed slot: RUNNABLE, child of the caller, level 3 for a child of init and 0 otherwise |
| `SchedHeap.PTable.Exit` | srcs/proc.c:492-535 | exit up to the switch, in place |
| `SchedHeap.PTable.Wait` | srcs/proc.c:540-579 | one turn of wait: reap the first zombie child, fail, or sleep |
| `SchedHeap.PTable.Execute` | srcs/proc.c:16-809 | every step of the machine is taken by this code, from any state of the invariant |
| `LogDisk.PutHeader` | srcs/log.c:102-113 | a written header reads back as the list, whatever the block held |
| `LogDisk.InstallFromExact` | srcs/log.c:70-82 | installing copies exactly the listed log blocks to their homes |
| `LogMachine.UnloggedRecovers` | srcs/log.c:193-202 | while the header is empty, recovery gives the home blocks as they are |
| `LogMachine.LoggedRecovers` | srcs/log.c:193-202 | from the header write on, recovery gives the blocks of the transaction, however far installing has got |
| `LogMachine.InstallLogged` | srcs/log.c:70-82 | one more block brought home keeps the log and every other home block right |
| `LogMachine.ReservedKept` | srcs/log.c:126-233 | log entries plus unused budgets never exceed LOGSIZE |
| `LogMachine.StepKeepsInv` | srcs/log.c:116-233 | begin, log_write, end, every block write and every crash keep the invariant |
| `LogTheorems.BootedInv` | srcs/log.c:54-66 | it holds when a machine starts on a disk with an empty log |
| `LogTheorems.RunKeepsInv` | srcs/log.c:116-233 | so it holds in every state of every run |
| `LogTheorems.RecoveryIsAtomic` | srcs/log.c:70-202 | stopping now and recovering gives the committed transactions, and the current one whole iff its header is on disk |
| `LogTheorems.OperationsAreAtomic` | srcs/log.c:126-174 | over any run no operation has log_writes in two transactions, nor in one on disk before it has ended |
| `LogTheorems.TransactionsAreComplete` | srcs/log.c:126-233 | over any run with crashes each transaction is exactly the log_writes of the whole run by the operations in it, in order; the current one has all those of the outstanding operations too |
| `LogTheorems.KeptForever` | srcs/log.c:193-202 | a transaction that has reached the disk keeps its place whatever happens later |
| `LogTheorems.CommitReturnIsDurable` | srcs/log.c:193-202 | when commit returns, its transaction is in the home blocks without recovery |
| `LogTheorems.EveryWriteIsLogged` | srcs/log.c:214-233 | over any run with crashes the transactions are exactly the log_writes made, in order, less those of the operations a crash cut off |
| `LogTheorems.NothingLost` | srcs/log.c:214-233 | without a crash they are all the log_writes made |
| `LogTheorems.Durability` | srcs/log.c:54-233 | from a clean disk, at any point of any run with crashes, recovery gives the initial disk with the transactions applied in commit order |
| `LogCommit.CommitIsAtomic` | srcs/log.c:193-202 | a crash after the k-th block write of commit recovers to the old blocks before the header write and to the new ones from it on |
| `LogCommit.RecoveryIsRestartable` | srcs/log.c:116-122 | a crash after the k-th block write of recovery recovers to the same blocks |
| `LogSpace.ReservationHolds` | srcs/log.c:126-174 | inside an operation no commit runs, and log_write within budget does not panic if log.size is at least LOGSIZE + 1 |
| `LogSpace.SmallLogPanics` | srcs/log.c:214-222 | with log.size at most LOGSIZE some run of operations within budget meets the panic |
| `LogSpace.AbsorptionPanicsWhenFull` | srcs/log.c:214-233 | with a large enough log, log_write of a block already in the log panics iff the log is full, though it adds nothing |
| `LogSpace.FullLogPanics` | srcs/log.c:214-233 | some run of operations within budget reaches that panic |
| `LogSpace.FillRuns` | srcs/log.c:126-233 | three operations can log any number of blocks up to thirty between them |
| `LogBuffers.BufferLeftIff` | srcs/bio.c:62-93 | commit finds a reusable buffer iff the pinned blocks and the clean buffers others hold are fewer than NBUF |
| `LogBuffers.SmallLogHasBuffer` | srcs/log.c:193-202 | with log.size at most LOGSIZE commit finds a buffer if nobody else holds one |
| `LogBuffers.FullLeavesNone` | srcs/log.c:193-202 | with NBUF blocks listed no cache that represents the state has a buffer left |
| `LogBuffers.EitherPanics` | srcs/log.c:126-233 | with log.size at most LOGSIZE some run within budget meets log_write's panic, and with more some run starts a commit that finds no buffer |
| `LogHeap.CopyToLogCouples` | srcs/log.c:178-190 | bread, memmove, bwrite and brelse of a pinned block through the cache are the machine's next log write |
| `LogHeap.CopyHomeCouples` | srcs/log.c:70-82 | the same for installing, which also unpins the block |
| `LogHeap.Log.constructor` | srcs/log.c:54-66 | a started machine with an empty cache represents the booted state |
| `LogHeap.Log.WriteLogBlock` | srcs/log.c:182-189 | one turn of write_log is the machine's next block write |
| `LogHeap.Log.InstallBlock` | srcs/log.c:74-81 | one turn of install_trans is the machine's next block write |
| `LogHeap.Log.WriteLog` | srcs/log.c:178-190 | makes exactly the machine's log writes, in order |
| `LogHeap.Log.InstallTrans` | srcs/log.c:70-82 | makes exactly the machine's home writes, in order |
| `LogHeap.Log.EncodeHeader` | srcs/log.c:102-113 | the loop stores the list in the header block |
| `LogHeap.Log.WriteHead` | srcs/log.c:102-113 | makes the machine's header write |
| `LogHeap.Log.ReadHead` | srcs/log.c:86-96 | reads back the list the header names |
| `LogHeap.Log.Commit` | srcs/log.c:193-202 | takes the disk through exactly the images of the machine's commit |
| `LogHeap.Log.RecoverFromLog` | srcs/log.c:116-122 | takes the disk through exactly the images of the machine's recovery, and leaves it as one whole recovery of what was there |
| `LogHeap.Log.BeginOp` | srcs/log.c:126-141 | goes ahead iff no commit runs and n + 10 * outstanding + 10 <= 30, and then counts one operation more |
| `LogHeap.Log.Absorb` | srcs/log.c:222-231 | appends the block iff it is not listed yet |
| `LogHeap.Log.Update` | srcs/log.c:214-233 | an update through the cache is the machine's log_write: pinned, listed once, no disk write |
| `LogHeap.Log.EndOp` | srcs/log.c:146-174 | counts one operation less; unless it was the last nothing is written; if it was, the log is empty again, every logged block is installed at home and the transaction is kept |
| `LogSpace.AdmittedIff` | srcs/log.c:126-141 | begin_op goes ahead iff no commit or recovery runs and the logged blocks plus ten for each operation outstanding and ten more are at most thirty |
| `LogSpace.IdleIsEmpty` | srcs/log.c:146-174 | in every state of every run, nothing outstanding and no commit or recovery means an empty list |
| `LogSpace.IdleAdmits` | srcs/log.c:126-141 | so then an operation is always admitted |
| `LogSpace.EndCommitsIff` | srcs/log.c:146-174 | end_op starts writing iff it was the last operation and something is listed; otherwise the log stays open |
| `LogCommit.LoggingEnds` | srcs/log.c:193-202 | the writes of a whole commit leave the logged blocks at home, the header empty and the rest of the home blocks as they were |
| `LogCommit.InstallingEnds` | srcs/log.c:70-82 | so do the writes of the installing half |
| `LogCommit.RecoveringEnds` | srcs/log.c:116-122 | the writes of a whole recovery leave exactly the recovered disk |
| `CacheModel.GetKeeps` | srcs/bio.c:62-93 | bget returns a buffer for the block and changes no block's contents as seen |
| `CacheModel.RecycleSameView` | srcs/bio.c:76-91 | recycling loses nothing, since only clean unreferenced buffers are recycled |
| `CacheModel.VictimIsLeastRecent` | srcs/bio.c:76-91 | the recycled buffer is the one released longest ago among the clean unreferenced ones |
| `CacheModel.FillKeeps` | srcs/bio.c:97-106 | bread gives the block's contents and changes no view |
| `CacheModel.ModifyKeeps` | srcs/bio.c:97-116 | changing a held buffer changes the view of its block only |
| `CacheModel.BWriteKeeps` | srcs/bio.c:110-116 | bwrite puts the view on disk and changes no view |
| `CacheModel.ReleaseKeeps` | srcs/bio.c:121-141 | brelse keeps the ring a permutation of all buffers, in order of last release |
| `CacheOps.ReadOne` | srcs/bio.c:97-106 | bread of a block nobody has locked takes its buffer and leaves all views, dirty flags and other holders as they were |
| `CacheOps.CopyDone` | srcs/log.c:178-190 | copying one block over another through two buffers changes that block on disk and in view, and leaves other holders as they were |
| `CacheRuns.StepKeeps` | srcs/bio.c:62-141 | every step keeps the invariant and the refinement |
| `CacheRuns.BootedInv` | srcs/bio.c:39-56 | the invariant and the refinement hold after binit |
| `CacheRuns.CacheRefinesFlatDisk` | srcs/bio.c:39-141 | over any run from binit, every block reads as on a flat disk that only holders of buffers change |
| `CacheUse.StepOne` | srcs/bio.c:62-141 | what each call does to one buffer's reference count, lock, dirty flag, block and time of release |
| `CacheUse.FieldsTell` | srcs/bio.c:62-141 | over any run from binit, a reference count is the number of bgets not yet followed by brelse, the dirty flag means passed to log_write and not yet written, the lock is held from its taking to brelse |
| `CacheUse.InUseKeepsBlock` | srcs/bio.c:76-91 | a buffer in use or waiting for its write is not recycled by any step |
| `CacheUse.RecyclesLeastRecentlyUsed` | srcs/bio.c:62-93 | over any run from binit, bget returns the buffer that has the block, or else the unused clean one that was let go first; it panics iff there is none |
| `CacheRing.UnlinkLinked` | srcs/bio.c:131-132 | the two assignments unlink a buffer from the ring |
| `CacheRing.PushLinked` | srcs/bio.c:133-136 | the four assignments link it in at the front |
| `CacheHeap.BCache.constructor` | srcs/bio.c:39-56 | binit's loop links all buffers into the ring |
| `CacheHeap.BCache.FindCached` | srcs/bio.c:69-75 | the walk from the front finds the block's buffer iff there is one |
| `CacheHeap.BCache.FindReusable` | srcs/bio.c:80-82 | the walk from the back finds the last reusable buffer of the ring |
| `CacheHeap.BCache.BGet` | srcs/bio.c:62-93 | bget, in place |
| `CacheHeap.BCache.BRead` | srcs/bio.c:97-106 | bread, in place |
| `CacheHeap.BCache.BWrite` | srcs/bio.c:110-116 | bwrite, in place, with the new disk image recorded |
| `CacheHeap.BCache.Unlink` | srcs/bio.c:131-132 | takes exactly that buffer out of the ring |
| `CacheHeap.BCache.PushFront` | srcs/bio.c:133-136 | puts it at the front of the ring |
| `CacheHeap.BCache.BRelse` | srcs/bio.c:121-141 | brelse, in place |
| `FsBits.SetBitExact` | srcs/fs.c:66-68 | setting a bit of the free map changes that bit only |
| `FsBits.ClearBitExact` | srcs/fs.c:88-92 | clearing a bit changes that bit only |
| `FsBits.PutWordExact` | srcs/fs.c:388-395 | a word stored in an indirect block reads back, and no other word changes |
| `FsModel.AllocOneSlot` | srcs/fs.c:373-395 | putting a cleared free block into an empty slot of an inode changes no other slot of any inode |
| `FsModel.AllocConserves` | srcs/fs.c:57-78 | allocation keeps: marked blocks are the metadata and, each once, the blocks in inode slots |
| `FsModel.AllocKeepsBytes` | srcs/fs.c:43-78 | allocation changes no byte of any file |
| `FsModel.FillGrows` | srcs/fs.c:378-395 | a slot is filled unless the disk is full, and full means every block is marked |
| `FsModel.BmapGrows` | srcs/fs.c:373-400 | bmap leaves the wanted block there, owned and marked, no byte changed, conservation kept; nothing changes if it was there |
| `FsModel.WriteKeepsBytes` | srcs/fs.c:497-503 | writing one data block changes those bytes of that file and no others, since blocks are not shared |
| `FsModel.WriteConserves` | srcs/fs.c:497-503 | and keeps every slot and conservation |
| `FsModel.TruncationConserves` | srcs/fs.c:408-435 | emptying an inode keeps conservation and every byte of the other files |
| `FsFiles.PatchOverwrites` | srcs/fs.c:482-511 | a patched file is its old contents overwritten from the offset, tail kept; other files keep theirs |
| `FsFiles.WriteIsPatch` | srcs/fs.c:497-503 | copying into part of a block patches exactly that range of the file |
| `FsFiles.ChunkFits` | srcs/file.c:126-133 | the counting behind the limit: data, free-map, indirect and inode blocks of a chunk add up to at most ten |
| `FsFiles.SumOfParts` | srcs/file.c:126-133 | a set covered by such parts is no larger than their sum |
| `FsHeap.FileSystem.constructor` | srcs/mkfs.c:238-251 | a disk whose first blocks are marked and whose inodes are empty is conserved, with every file empty |
| `FsHeap.FileSystem.ScanMap` | srcs/fs.c:62-73 | the inner loop finds the first free bit of one free-map block, or passes over marked bits only |
| `FsHeap.FileSystem.BAlloc` | srcs/fs.c:57-78 | returns the first free block of the disk, marked and cleared, or reports that all are marked |
| `FsHeap.FileSystem.BZero` | srcs/fs.c:43-51 | the block becomes all zero, is logged, and no other block changes |
| `FsHeap.FileSystem.BFree` | srcs/fs.c:82-95 | clears exactly that mark; a free block is a precondition violation |
| `FsHeap.FileSystem.FillDirect` | srcs/fs.c:378-387 | a direct slot or the indirect slot is filled as the function says |
| `FsHeap.FileSystem.FillIndirect` | srcs/fs.c:388-395 | so is a word of the indirect block |
| `FsHeap.FileSystem.BMap` | srcs/fs.c:373-400 | the address of the file block, one of twelve in the inode or of 128 in the block that the thirteenth names, with what it logs: two blocks if allocated, and the indirect block with its free-map block |
| `FsHeap.FileSystem.IUpdate` | srcs/fs.c:221-236 | the inode on disk becomes the one in memory, and its block is logged |
| `FsHeap.FileSystem.WriteI` | srcs/fs.c:482-511 | returns -1 iff off is past the size or off + n is past 71680, for all 32-bit off and n; else the file is overwritten, its size grows to the end of the write, it stays without holes, and its inode on disk is current; three blocks' bytes log at most ten blocks |
| `FsHeap.TestsRefuseIff` | srcs/fs.c:492-495 | the wrapping tests of writei refuse exactly an offset past the size or an end past 71680 |
| `FsHeap.FileSystem.ReadI` | srcs/fs.c:453-476 | returns -1 iff off is past the size or off + n reaches 2^32, for all 32-bit off and n; else exactly min(n, size - off) bytes, those of the file; no byte changes, and in a file without holes nothing does |
| `FsHeap.WriteThenRead` | srcs/fs.c:453-511 | readi after a writei that is not refused returns exactly what was written |
| `FsHeap.FileSystem.ITrunc` | srcs/fs.c:408-435 | frees each of the file's blocks exactly once and nothing else, so bfree's panic is not met |
| `FsHeap.FreeNext` | srcs/fs.c:413-425 | each data block is still marked when its turn to be freed comes |
| `FsHeap.FreeLast` | srcs/fs.c:427-430 | so is the indirect block after all its words |
| `FsHeap.WriteDone` | srcs/fs.c:505-509 | a completed write keeps conservation and leaves no hole below the new size |
| `FsHeap.BudgetNext` | srcs/file.c:126-133 | each further block of a write adds one data block, and a free-map block only if allocated |
| `FileOps.File.WriteOp` | srcs/file.c:139-145 | one transaction of filewrite logs at most ten blocks, and advances the offset by what it wrote |
| `FileOps.File.FileWrite` | srcs/file.c:118-156 | succeeds iff n is 0, or positive with off at most the size and off + n at most 71680; all n bytes then overwrite the file, in ceil(n / 1536) transactions, and others stay; otherwise exactly the whole chunks that fit are written; every transaction fits the log |
| `FileOps.File.FileRead` | srcs/file.c:97-113 | returns -1 as readi does or if not readable, else the next min(n, size - off) bytes, and advances the offset by their number |
| `FileOps.WrittenTwice` | srcs/file.c:135-150 | writes that follow on one another are one write |
| `FileOps.ReachedOverwrites` | srcs/file.c:118-156 | what filewrite reached, as file contents |
| `FreeList.FreeIntoExact` | srcs/umalloc.c:25-44 | freeing covers exactly the old free units and the block, sorted and with nothing left to coalesce |
| `FreeList.TakeFromExact` | srcs/umalloc.c:75-85 | allocation moves exactly the taken units out of the free ones |
| `HeapMemory.InsertedHolds` | srcs/umalloc.c:33-43 | free's header assignments make the circle of the list with the block joined to its neighbours |
| `HeapMemory.UnlinkedHolds` | srcs/umalloc.c:76-77 | taking a whole block unlinks it from the circle |
| `HeapMemory.ShrunkHolds` | srcs/umalloc.c:78-82 | cutting the tail off a block leaves the circle with a smaller block |
| `HeapMemory.FreeBalances` | srcs/umalloc.c:25-44 | free and allocated blocks still partition what sbrk gave |
| `HeapMemory.GrowBalances` | srcs/umalloc.c:47-61 | so they do after sbrk, with the new units added |
| `HeapMemory.TakeBalances` | srcs/umalloc.c:75-85 | so they do after an allocation |
| `Umalloc.PayloadFitsIff` | srcs/umalloc.c:51-69 | the units have room for nbytes iff the rounding does not wrap, and are then no more than needed; sbrk is also asked for their bytes iff nbytes is at most 2^31 - 16 |
| `Umalloc.SbrkGrantsIff` | srcs/sysproc.c:45-58 | sbrk grants what morecore wants, or refuses, if the byte count is below 2^31; otherwise it grants nothing and refuses in one case only |
| `Umalloc.RoundingWraps` | srcs/umalloc.c:69 | 0xFFFFFFFF bytes are rounded to one unit |
| `Umalloc.ByteCountWraps` | srcs/umalloc.c:54 | for 0xFFFFFFF8 bytes sbrk is asked for 0 bytes and grants none, while the header claims 2^29 units |
| `Umalloc.ByteCountTurnsNegative` | srcs/umalloc.c:54 | from 2^31 - 15 bytes on the argument of sbrk is negative, and there the break does not move |
| `Umalloc.StopsAtPlace` | srcs/umalloc.c:30-32 | the two tests of free's loop stop it at the right node and at no other |
| `Umalloc.SomeBlockFits` | srcs/umalloc.c:64-90 | after sbrk some block is large enough, so malloc's next round ends |
| `Umalloc.Heap.FindPlace` | srcs/umalloc.c:30-32 | the loop ends at the node after which the block belongs, from any rover |
| `Umalloc.Heap.Insert` | srcs/umalloc.c:25-44 | the list becomes the one with the block freed into it, the rover is the last node below the block, and no header of an allocated block changes |
| `Umalloc.Heap.Free` | srcs/umalloc.c:25-44 | the block becomes free, coalesced, the rover stands before it, and the books balance |
| `Umalloc.Heap.Morecore` | srcs/umalloc.c:47-61 | the free list gains a block that claims the units asked for, at least 4096, at the old break, unless sbrk refuses; the process really has them iff their bytes are below 2^31 |
| `Umalloc.Heap.FindFit` | srcs/umalloc.c:74-86 | once round the circle: the first fitting block from the rover on, or none of the blocks fits |
| `Umalloc.Heap.Take` | srcs/umalloc.c:75-85 | all of the found block, or units off its end, become allocated |
| `Umalloc.Heap.Search` | srcs/umalloc.c:74-88 | the loop finds the first fitting block from the rover on, asking sbrk iff nothing fits, and fails iff sbrk refuses |
| `Umalloc.Heap.Malloc` | srcs/umalloc.c:64-90 | the end of the first fitting block from the rover on, disjoint from all other blocks, or NULL iff nothing fits and sbrk refuses; what is returned has room for nbytes, in its block and in the process, iff nbytes is at most 2^31 - 16 |
| `Pipe.CountersTell` | srcs/pipe.c:79-121 | the wrapped counters tell empty, full and the number of bytes between |
| `Pipe.SlotOfCounter` | srcs/pipe.c:93-116 | a wrapped counter still points at its byte's slot, because 512 divides 2^32 |
| `Pipe.SlotsDiffer` | srcs/pipe.c:93-116 | bytes less than 512 apart lie in different slots, so no unread byte is overwritten |
| `Pipe.Pipe.Write` | srcs/pipe.c:79-98 | takes the caller's next bytes in order; stops early only on a full pipe, failing iff no reader is left or it is killed |
| `Pipe.Pipe.Read` | srcs/pipe.c:101-121 | delivers the next bytes, as many as there are; sleeps or fails only on an empty pipe that can still be written |
| `Pipe.Pipe.Close` | srcs/pipe.c:60-75 | closes one end, and frees the pipe iff both are closed |
| `Pipe.Session` | srcs/pipe.c:79-121 | over any turns of many readers and writers, what is read is a prefix of what was accepted, and each writer's bytes are in it in order, none lost or repeated |

## Left out

- SchedHeap.PTable.Exit: closing files and releasing the directory are not modelled, and init calling exit, a panic, is excluded.
- SchedHeap.PTable.Fork: copying memory, files and the trap frame is not modelled; whether memory is available is a choice of the step taken.
- SchedTheorems.LevelFollowsCpuTime: stated for one CPU and a process not promoted, because the code does not keep it otherwise.
- CacheHeap.BCache.BGet: the panic for want of buffers is a precondition; LogBuffers says when commit is safe from it.
- LogHeap.Log.Commit: others may hold buffers, but none of a block that commit touches, for which it would wait; and they do not take or give back buffers between its block writes.
- LogHeap.Log.Update: log_write's panics are preconditions, and LogSpace says exactly when they can happen; the waiting is left out likewise for the block it changes, and nobody else is in the middle of changing another block.
- FsHeap.FileSystem.ITrunc: does not bound the blocks it logs, which grow with the free-map blocks the file's blocks lie in.
- FsHeap.FileSystem.WriteI: the state a full disk leaves when balloc panics half-way is only said to be full; and ten is shown to bound what a transaction logs, not to be reached.
- FsHeap.FileSystem.BFree: the panic on a free block is a precondition, shown unreachable from itrunc.
- Umalloc.Heap.Search: the single loop of the source is written as a search, a call to morecore and a search again.
- Umalloc.Heap.Malloc: starts from a heap that the process has memory for, and a break at a multiple of eight bytes; the page fault that a header beyond the break may cause is not modelled.
- Context switching, virtual memory, exec, traps other than the timer, and system call argument checks.
- Spinlocks and sleep locks: a locked section is one step, or a method call.
- Device files, the disk driver, the console and booting.
- Directories, path names, the inode cache, and inode allocation, which would mostly add further users of the file layer.
- The encoding of inodes on disk and reading the super block.
- Starvation at level 0, where nothing ages, and fairness among processes of one level.
- Overflow of pids and of the per-process counters.
- User programs.
