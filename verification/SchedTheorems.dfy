/** What the scheduler guarantees over every run that starts from the table userinit leaves. */
module SchedTheorems {
  import opened SchedTable
  import opened SchedSteps
  import opened SchedRuns

  // ----- runs

  datatype Run = Begin(start: Table) | Extend(before: Run, event: Event)

  ghost predicate IsRun(r: Run)
    decreases r, 0
  {
    match r
    case Begin(t) => Shape(t)
    case Extend(r', e) => IsRun(r') && Enabled(Final(r'), e)
  }

  ghost function Final(r: Run): (t: Table)
    requires IsRun(r)
    ensures Shape(t)
    decreases r, 1
  {
    match r
    case Begin(t) => t
    case Extend(r', e) => Step(Final(r'), e)
  }

  ghost function Start(r: Run): (t: Table)
    requires IsRun(r)
    ensures Shape(t)
  {
    match r
    case Begin(t) => t
    case Extend(r', _) => Start(r')
  }

  lemma BootQueueInv()
    ensures QueueInv(Boot())
  {
    hide Boot;
    hide AddToQueue;
    QueueingInitBoots();
    AddToQueueKeepsQueues(BeforeBoot(), 0, 3);
  }

  lemma BootInv()
    ensures Inv(Boot())
  {
    hide QueueInv;
    hide Queues;
    BootQueueInv();
    var t := Boot();
    assert t.nextpid == 2 && t.initproc == 0;
    hide Boot;
  }

  /** In every state of every run the four queues are well-formed, disjoint and sorted, a process
      is queued exactly when it is RUNNABLE, and the pid and parent relations are sound. */
  lemma {:induction false} RunKeepsInv(r: Run)
    requires IsRun(r) && Inv(Start(r))
    ensures Inv(Final(r))
  {
    hide Inv;
    if r.Extend? {
      RunKeepsInv(r.before);
      StepKeepsInv(Final(r.before), r.event);
    }
  }

  // ----- what a step does to one entry

  predicate SameCounters(a: Entry, b: Entry) {
    && b.level == a.level && b.burst == a.burst && b.wait == a.wait && b.io == a.io
    && b.endTime == a.endTime && b.total == a.total && b.kind == a.kind
  }

  predicate Reset(b: Entry) {
    b.level == 0 && b.burst == 0 && b.wait == 0 && b.io == 0 && b.endTime == -1 && b.total == 0
  }

  /** Counters, level and type of an entry change only by the timer step, by the process's own
      set_proc_info, and when its slot is claimed or filled by fork. */
  predicate EntryChange(t: Table, e: Event, i: int, b: Entry)
    requires Shape(t) && Slot(i)
  {
    var a := t.procs[i];
    match e
    case Timer(cur) => b == AfterTimer(a, i == cur, t.ticks)
    case SetsInfo(cur, level, burst, wait, io, endTime) =>
      if i != cur then b == a else b == a.(level := level, burst := burst, wait := wait, io := io, endTime := endTime)
    case Allocs => b == a || (a.state == Unused && b.state == Embryo && Reset(b) && b.kind == a.kind && b.pid == t.nextpid)
    case Forks(cur, np) =>
      if i != np then b == a else Slot(cur) && b == ForkedEntry(t.procs[cur], cur, a).(entryTime := t.ticks)
    case _ =>
      && SameCounters(a, b)
      && (Used(b) ==> Used(a)) && (Started(b) ==> Started(a))
      && (b.state == Running ==> a.state == Running || e.Dispatches?)
      && if b.pid == a.pid then Started(a) ==> Started(b) else b.pid == 0 && b.state == Unused
  }

  lemma StepEntry(t: Table, e: Event)
    requires Inv(t) && Enabled(t, e)
    ensures forall i :: 0 <= i < NPROC ==> EntryChange(t, e, i, Step(t, e).procs[i])
    ensures Step(t, e).nextpid >= t.nextpid
  {
    hide QueueInv;
    hide Queues;
    hide Pids;
    hide Parents;
    hide AddToQueue;
    hide Wakeup;
    hide TimerSection;
    hide Dispatch;
    hide Exit;
    hide Tick;
    hide Wait;
    hide Kill;
    match e {
      case Ticks => TickExact(t);
      case Timer(cur) => TimerSectionExact(t, cur);
      case Dispatches => DispatchExact(t);
      case Yields(cur) => EnqueueKeepsInv(t, cur, t.procs[cur].(state := Runnable));
      case Wakes(chan) => WakeupExact(t, chan);
      case Kills(pid) => KillEntry(t, pid);
      case Forks(cur, np) => EnqueueKeepsInv(t, np, ForkedEntry(t.procs[cur], cur, t.procs[np]));
      case Exits(cur) => ExitEntry(t, cur);
      case Waits(cur) => WaitEntry(t, cur);
      case _ =>
    }
  }

  lemma WaitEntry(t: Table, cur: int)
    requires Shape(t) && Pids(t) && IsRunning(t, cur)
    ensures forall i :: 0 <= i < NPROC ==> EntryChange(t, Waits(cur), i, Wait(t, cur).procs[i])
    ensures Wait(t, cur).nextpid == t.nextpid
  {
    hide FindZombieChild;
    hide HasChild;
    var z := FindZombieChild(t.procs, cur, 0);
    var t' := Wait(t, cur);
    if z < NPROC { assert Used(t.procs[z]); }
    assert t'.procs == if z < NPROC then t.procs[z := t'.procs[z]] else t.procs[cur := t'.procs[cur]];
  }

  lemma KillEntry(t: Table, pid: int)
    requires QueueInv(t)
    ensures forall i :: 0 <= i < NPROC ==> EntryChange(t, Kills(pid), i, Kill(t, pid).procs[i])
    ensures Kill(t, pid).nextpid == t.nextpid
  {
    hide QueueInv;
    hide Queues;
    hide Kill;
    hide FindPid;
    KillExact(t, pid);
  }

  lemma ExitEntry(t: Table, cur: int)
    requires QueueInv(t) && IsRunning(t, cur) && cur != t.initproc
    ensures forall i :: 0 <= i < NPROC ==> EntryChange(t, Exits(cur), i, Exit(t, cur).procs[i])
    ensures Exit(t, cur).nextpid == t.nextpid
  {
    hide Exit;
    hide QueueInv;
    hide Queues;
    ExitExact(t, cur);
    ExitWakes(t, cur);
    hide AfterExit;
    var t' := Exit(t, cur);
    forall i | 0 <= i < NPROC ensures EntryChange(t, Exits(cur), i, t'.procs[i]) {
      assert i != cur ==> Survived(t.procs[i], t'.procs[i], cur, t.initproc);
    }
  }

  // ----- picking the next process

  /** The order of service: lower level, then more I/O time, then later entry. */
  predicate NoWorse(a: Entry, b: Entry) {
    a.level < b.level || (a.level == b.level && (a.io > b.io || (a.io == b.io && a.entryTime >= b.entryTime)))
  }

  /** The head of the first nonempty queue is what a scan of the whole table for the best
      RUNNABLE process would find: least level, then greatest io, then latest entry. */
  lemma PickRefinesScan(t: Table)
    requires Inv(t)
    ensures var p := NextProc(t);
      && (p == NOSLOT <==> forall i :: 0 <= i < NPROC ==> t.procs[i].state != Runnable)
      && (p != NOSLOT ==>
            && Slot(p) && t.procs[p].state == Runnable && t.procs[p].kstack
            && forall i :: 0 <= i < NPROC && t.procs[i].state == Runnable ==> NoWorse(t.procs[p], t.procs[i]))
  {
    hide Inv, QueueInv, Dispatch;
    var p := NextProc(t);
    NextProcStarted(t);
    forall i | 0 <= i < NPROC && t.procs[i].state == Runnable
      ensures p != NOSLOT
      ensures NoWorse(t.procs[p], t.procs[i])
    {
      QueueHeadIsBest(t, i);
      NextProcAtMost(t, t.procs[i].level);
    }
  }

  lemma NextProcStarted(t: Table)
    requires Inv(t)
    ensures var p := NextProc(t); p != NOSLOT ==> Slot(p) && t.procs[p].state == Runnable && t.procs[p].kstack
  {
    DispatchExact(t);
    hide QueueInv, Queues, Dispatch, NextProc;
  }

  /** The next process is no lower than the head of any list, and is that head on its own level. */
  lemma NextProcAtMost(t: Table, l: int)
    requires Queues(t) && 0 <= l < NLEVEL && t.queues[l] != []
    ensures var p := NextProc(t);
      p != NOSLOT && Slot(p) && (t.procs[p].level < l || (t.procs[p].level == l && p == t.queues[l][0]))
  {
    HeadsHaveTheirLevel(t);
    hide Queues;
  }

  lemma QueueHeadIsBest(t: Table, i: int)
    requires QueueInv(t) && Slot(i) && t.procs[i].state == Runnable
    ensures var q := t.queues[t.procs[i].level]; q != [] && !Higher(t.procs[i], t.procs[q[0]])
  {
    var q := t.queues[t.procs[i].level];
    assert Queued(t, i);
    assert WellFormedQueue(t, t.procs[i].level) && SortedQueue(t.procs, q);
    var k :| 0 <= k < |q| && q[k] == i;
  }

  lemma HeadsHaveTheirLevel(t: Table)
    requires Queues(t)
    ensures forall l :: 0 <= l < NLEVEL && t.queues[l] != [] ==>
      Slot(t.queues[l][0]) && t.procs[t.queues[l][0]].level == l
  {
    forall l | 0 <= l < NLEVEL && t.queues[l] != []
      ensures Slot(t.queues[l][0]) && t.procs[t.queues[l][0]].level == l
    {
      assert WellFormedQueue(t, l);
    }
  }

  /** scheduler() starts a process in every state in which one is RUNNABLE: the test of state and
      kstack that guards the switch never fails. */
  lemma DispatchAlwaysRuns(t: Table)
    requires Inv(t)
    requires exists i :: 0 <= i < NPROC && t.procs[i].state == Runnable
    ensures var p := NextProc(t);
      && Slot(p) && t.procs[p].state == Runnable
      && Dispatch(t).procs == t.procs[p := t.procs[p].(state := Running, chan := NoChan)]
      && !Queued(Dispatch(t), p)
  {
    hide Queues;
    PickRefinesScan(t);
    DispatchExact(t);
  }

  /** Where add_to_queue puts p relative to a queued process of equal io: behind it exactly when
      that process was not queued at an earlier tick count.  So the order is the FIFO order that the
      project's description promises only within one tick, or across a wrap of the clock; otherwise
      the newest goes first. */
  lemma QueuesBehindIff(t: Table, p: int, level: int, k: int)
    requires Queues(t) && Slot(p) && 0 <= level < NLEVEL && !Queued(t, p)
    requires 0 <= k < |t.queues[level]| && t.procs[t.queues[level][k]].io == t.procs[p].io
    ensures var t' := AddToQueue(t, p, level);
      var m := InsertPos(t'.procs, t.queues[level], p, 0);
      && m <= |t.queues[level]| && t'.queues[level][m] == p
      && t'.queues[level][if m > k then k else k + 1] == t.queues[level][k]
      && (m > k <==> t.procs[t.queues[level][k]].entryTime >= t.ticks)
  {
    var procs, q := AddToQueue(t, p, level).procs, t.queues[level];
    assert WellFormedQueue(t, level) && SortedQueue(t.procs, q);
    assert p !in q;
    hide Queues, WellFormedQueue, InsertPos;
    assert SortedQueue(procs, q);
    InsertPosIff(procs, q, p, k);
  }

  /** In a sorted list the walk passes exactly those it does not go in front of. */
  lemma InsertPosIff(procs: seq<Entry>, q: seq<int>, p: int, k: int)
    requires |procs| == NPROC && Slot(p) && Slots(q) && SortedQueue(procs, q) && 0 <= k < |q|
    ensures InsertPos(procs, q, p, 0) > k <==> !Higher(procs[p], procs[q[k]])
  {
    var m := InsertPos(procs, q, p, 0);
    if m < k { assert !Higher(procs[q[k]], procs[q[m]]); }
  }

  /** The whole insertion is first in, first out among equal io exactly when nobody of equal io was
      queued at an earlier tick count. */
  lemma FifoIff(t: Table, p: int, level: int)
    requires Queues(t) && Slot(p) && 0 <= level < NLEVEL && !Queued(t, p)
    ensures var q := t.queues[level]; var m := InsertPos(AddToQueue(t, p, level).procs, q, p, 0);
      (forall k :: 0 <= k < |q| && t.procs[q[k]].io == t.procs[p].io ==> m > k) <==>
      (forall k :: 0 <= k < |q| && t.procs[q[k]].io == t.procs[p].io ==> t.procs[q[k]].entryTime >= t.ticks)
  {
    var q := t.queues[level];
    hide AddToQueue, Queues, InsertPos;
    forall k | 0 <= k < |q| && t.procs[q[k]].io == t.procs[p].io
      ensures InsertPos(AddToQueue(t, p, level).procs, q, p, 0) > k <==> t.procs[q[k]].entryTime >= t.ticks
    {
      QueuesBehindIff(t, p, level, k);
    }
  }

  // ----- aging

  /** An ordinary process below level 0 has waited less than the aging limit. */
  ghost predicate WaitsBounded(t: Table)
    requires Shape(t)
  {
    forall i :: 0 <= i < NPROC && Ordinary(t.procs[i]) && t.procs[i].level >= 1 ==> 0 <= t.procs[i].wait < AGING
  }

  ghost predicate NoSetInfo(r: Run) {
    r.Extend? ==> !r.event.SetsInfo? && NoSetInfo(r.before)
  }

  lemma {:induction false} RunKeepsWaitsBounded(r: Run)
    requires IsRun(r) && Inv(Start(r)) && WaitsBounded(Start(r)) && NoSetInfo(r)
    ensures WaitsBounded(Final(r))
  {
    hide Inv;
    if r.Extend? {
      RunKeepsWaitsBounded(r.before);
      RunKeepsInv(r.before);
      StepKeepsWaitsBounded(Final(r.before), r.event);
    }
  }

  lemma StepKeepsWaitsBounded(t: Table, e: Event)
    requires Inv(t) && Enabled(t, e) && !e.SetsInfo? && WaitsBounded(t)
    ensures WaitsBounded(Step(t, e))
  {
    hide Inv;
    hide Step;
    StepEntry(t, e);
    forall i | 0 <= i < NPROC && Ordinary(Step(t, e).procs[i]) && Step(t, e).procs[i].level >= 1
      ensures 0 <= Step(t, e).procs[i].wait < AGING
    {
      assert EntryChange(t, e, i, Step(t, e).procs[i]);
    }
  }

  /** How far an ordinary queued process is from level 0, in timer steps. */
  function AgingMeasure(e: Entry): int {
    AGING * e.level - e.wait
  }

  /** A queued process stays queued over the step. */
  predicate QueuedBoth(t: Table, t': Table, i: int)
    requires Shape(t) && Shape(t') && Slot(i)
  {
    t.procs[i].state == Runnable && t'.procs[i].state == Runnable && t'.procs[i].pid == t.procs[i].pid
  }

  /** The measure drops by exactly one at each timer step and does not move at any other step. */
  lemma AgingStep(t: Table, e: Event, i: int)
    requires Inv(t) && Enabled(t, e) && Slot(i) && QueuedBoth(t, Step(t, e), i)
    requires Ordinary(t.procs[i]) && t.procs[i].level >= 1 && 0 <= t.procs[i].wait < AGING
    ensures var b := Step(t, e).procs[i];
      && Ordinary(b)
      && AgingMeasure(b) == AgingMeasure(t.procs[i]) - (if e.Timer? then 1 else 0)
      && 0 <= b.wait < AGING
  {
    assert Used(t.procs[i]) && t.procs[i].pid > 0;
    hide Inv;
    hide Step;
    StepEntry(t, e);
    assert EntryChange(t, e, i, Step(t, e).procs[i]);
  }

  lemma TopStaysTop(t: Table, e: Event, i: int)
    requires Inv(t) && Enabled(t, e) && Slot(i) && QueuedBoth(t, Step(t, e), i) && t.procs[i].level == 0
    ensures Step(t, e).procs[i].level == 0
  {
    hide Inv;
    hide Step;
    StepEntry(t, e);
    assert EntryChange(t, e, i, Step(t, e).procs[i]);
  }

  /** Slot i holds the same queued process in every state of the run. */
  ghost predicate StaysQueued(r: Run, i: int)
    requires IsRun(r) && Slot(i)
  {
    && Final(r).procs[i].state == Runnable
    && Final(r).procs[i].pid == Start(r).procs[i].pid
    && (r.Extend? ==> StaysQueued(r.before, i))
  }

  function TimerSteps(r: Run): nat {
    if r.Begin? then 0 else TimerSteps(r.before) + if r.event.Timer? then 1 else 0
  }

  /** While a queued ordinary process has not reached level 0, its measure counts the timer steps. */
  lemma {:induction false} AgingCountsDown(r: Run, i: int)
    requires IsRun(r) && Inv(Start(r)) && Slot(i) && StaysQueued(r, i)
    requires var a := Start(r).procs[i]; Ordinary(a) && 0 <= a.wait < AGING
    ensures var a, b := Start(r).procs[i], Final(r).procs[i];
      b.level == 0 ||
      (Ordinary(b) && 0 <= b.wait < AGING && b.level >= 1 && AgingMeasure(b) == AgingMeasure(a) - TimerSteps(r))
  {
    hide Inv;
    hide Step;
    if r.Extend? {
      AgingCountsDown(r.before, i);
      RunKeepsInv(r.before);
      if Final(r.before).procs[i].level != 0 {
        AgingStep(Final(r.before), r.event, i);
      } else {
        TopStaysTop(Final(r.before), r.event, i);
      }
    }
  }

  /** No ordinary process is left waiting below level 0: one that stays queued from level L on
      is at level 0 after 250 * L timer steps. */
  lemma AgingBound(r: Run, i: int)
    requires IsRun(r) && Inv(Start(r)) && Slot(i) && StaysQueued(r, i)
    requires var a := Start(r).procs[i]; Ordinary(a) && 0 <= a.wait < AGING
    requires TimerSteps(r) >= AGING * Start(r).procs[i].level
    ensures Final(r).procs[i].level == 0
  {
    AgingCountsDown(r, i);
  }

  /** A run from boot in which nobody calls set_proc_info needs no assumption on the waits. */
  lemma AgingBoundFromBoot(boot: Run, r: Run, i: int)
    requires IsRun(boot) && Start(boot) == Boot() && NoSetInfo(boot)
    requires IsRun(r) && Start(r) == Final(boot) && Slot(i) && StaysQueued(r, i)
    requires Ordinary(Start(r).procs[i])
    requires TimerSteps(r) >= AGING * Start(r).procs[i].level
    ensures Final(r).procs[i].level == 0
  {
    hide Inv;
    hide Boot;
    BootInv();
    BootWaits();
    RunKeepsInv(boot);
    RunKeepsWaitsBounded(boot);
    if Start(r).procs[i].level == 0 { StaysAtTop(r, i); } else { AgingBound(r, i); }
  }

  lemma BootWaits()
    ensures WaitsBounded(Boot())
  {
  }

  lemma {:induction false} StaysAtTop(r: Run, i: int)
    requires IsRun(r) && Inv(Start(r)) && Slot(i) && StaysQueued(r, i) && Start(r).procs[i].level == 0
    ensures Final(r).procs[i].level == 0
  {
    hide Inv;
    hide Step;
    if r.Extend? {
      StaysAtTop(r.before, i);
      RunKeepsInv(r.before);
      TopStaysTop(Final(r.before), r.event, i);
    }
  }

  // ----- quantum accounting

  function LevelFor(total: int): int {
    if total < 10 then 0 else if total < 30 then 1 else if total < 70 then 2 else 3
  }

  /** Ticks a process has used up before it enters a level. */
  function UsedBefore(level: int): int {
    if level == 0 then 0 else if level == 1 then 10 else if level == 2 then 30 else 70
  }

  /** The burst is what has been used of the quantum of the present level. */
  predicate Accounted(e: Entry) {
    && Ordinary(e) && e.endTime <= 0
    && 0 <= e.level < NLEVEL && 0 <= e.burst < TimeQuantum(e.level)
    && (if e.level < 3 then e.total == UsedBefore(e.level) + e.burst else e.total >= 70 + e.burst)
  }

  /** On one CPU nobody else runs while cur does. */
  ghost predicate OneCpu(t: Table)
    requires Shape(t)
  {
    forall i, j :: 0 <= i < j < NPROC ==> !(t.procs[i].state == Running && t.procs[j].state == Running)
  }

  ghost predicate NobodyRuns(t: Table)
    requires Shape(t)
  {
    forall i :: 0 <= i < NPROC ==> t.procs[i].state != Running
  }

  /** The CPU enters its scheduler loop only when its process has stopped running. */
  ghost predicate SingleCpu(r: Run)
    requires IsRun(r)
  {
    if r.Begin? then OneCpu(r.start)
    else SingleCpu(r.before) && (r.event.Dispatches? ==> NobodyRuns(Final(r.before)))
  }

  lemma OneCpuStep(t: Table, e: Event)
    requires Inv(t) && Enabled(t, e) && OneCpu(t) && (e.Dispatches? ==> NobodyRuns(t))
    ensures OneCpu(Step(t, e))
  {
    hide QueueInv;
    hide Queues;
    hide Pids;
    hide Parents;
    if e.Dispatches? {
      hide Dispatch;
      hide NextProc;
      DispatchExact(t);
    } else {
      hide Step;
      StepEntry(t, e);
      var t' := Step(t, e);
      forall i | 0 <= i < NPROC && t'.procs[i].state == Running ensures t.procs[i].state == Running {
        assert EntryChange(t, e, i, t'.procs[i]);
      }
    }
  }

  lemma {:induction false} SingleCpuRunsOne(r: Run)
    requires IsRun(r) && Inv(Start(r)) && SingleCpu(r)
    ensures OneCpu(Final(r))
  {
    hide Inv;
    hide Step;
    if r.Extend? {
      SingleCpuRunsOne(r.before);
      RunKeepsInv(r.before);
      OneCpuStep(Final(r.before), r.event);
    }
  }

  lemma AccountedStep(t: Table, e: Event, i: int)
    requires Inv(t) && Enabled(t, e) && OneCpu(t) && Slot(i)
    requires Accounted(t.procs[i]) && Started(t.procs[i])
    requires var b := Step(t, e).procs[i];
      b.pid == t.procs[i].pid && !b.killed && b.level >= t.procs[i].level
    requires !(e.SetsInfo? && e.cur == i)
    ensures Accounted(Step(t, e).procs[i]) && Started(Step(t, e).procs[i])
  {
    assert Used(t.procs[i]) && t.procs[i].pid > 0;
    hide Inv;
    hide Step;
    StepEntry(t, e);
    assert EntryChange(t, e, i, Step(t, e).procs[i]);
    AccountedEntry(t, e, i, Step(t, e).procs[i]);
  }

  lemma AccountedEntry(t: Table, e: Event, i: int, b: Entry)
    requires Shape(t) && Slot(i) && Enabled(t, e) && OneCpu(t) && EntryChange(t, e, i, b)
    requires Accounted(t.procs[i]) && Started(t.procs[i]) && t.procs[i].pid > 0
    requires b.pid == t.procs[i].pid && !b.killed && b.level >= t.procs[i].level
    requires !(e.SetsInfo? && e.cur == i)
    ensures Accounted(b) && Started(b)
  {
    if e.Timer? {
      hide Accounted;
      assert t.procs[i].state == Running ==> i == e.cur;
      AccountedTimer(t.procs[i], i == e.cur, t.ticks);
    }
  }

  lemma AccountedTimer(e: Entry, interrupted: bool, now: int)
    requires Accounted(e) && e.pid != 0 && (e.state == Running <==> interrupted)
    requires var b := AfterTimer(e, interrupted, now); !b.killed && b.level >= e.level
    ensures Accounted(AfterTimer(e, interrupted, now))
  {
  }

  /** In every state of the run slot i holds the same process, not killed; no step promotes it
      and it does not call set_proc_info. */
  ghost predicate Undisturbed(r: Run, i: int)
    requires IsRun(r) && Slot(i)
  {
    && Final(r).procs[i].pid == Start(r).procs[i].pid && !Final(r).procs[i].killed
    && (r.Extend? ==>
          && Undisturbed(r.before, i)
          && Final(r).procs[i].level >= Final(r.before).procs[i].level
          && !(r.event.SetsInfo? && r.event.cur == i))
  }

  /** On one CPU the level of an undisturbed ordinary process is a function of the CPU time it has
      had, however its sleeps, wakeups and yields fall. */
  lemma {:induction false} LevelFollowsCpuTime(r: Run, i: int)
    requires IsRun(r) && Inv(Start(r)) && SingleCpu(r) && Slot(i) && Undisturbed(r, i)
    requires Accounted(Start(r).procs[i]) && Started(Start(r).procs[i])
    ensures Accounted(Final(r).procs[i]) && Started(Final(r).procs[i])
    ensures Final(r).procs[i].level == LevelFor(Final(r).procs[i].total)
  {
    hide Inv;
    hide Step;
    if r.Extend? {
      LevelFollowsCpuTime(r.before, i);
      RunKeepsInv(r.before);
      SingleCpuRunsOne(r.before);
      AccountedStep(Final(r.before), r.event, i);
    }
  }

  /** A process forked by anyone but init starts accounted for, unless it inherits the type of a
      former shell from its slot. */
  lemma ForkStartsAccounted(t: Table, cur: int, np: int)
    requires Inv(t) && IsRunning(t, cur) && IsEmbryo(t, np)
    ensures Accounted(ForkOk(t, cur, np).procs[np]) <==> t.procs[cur].pid != 1 && Ordinary(t.procs[np])
  {
    EnqueueKeepsInv(t, np, ForkedEntry(t.procs[cur], cur, t.procs[np]));
  }

  /** With several CPUs a timer interrupt on one of them charges the processes running on the
      others without testing their quanta: their levels keep following their CPU time exactly
      until a quantum above the last level runs out. */
  lemma OtherCpuMissesQuantum(t: Table, cur: int, i: int)
    requires Inv(t) && IsRunning(t, cur) && IsRunning(t, i) && i != cur && Accounted(t.procs[i])
    ensures var b := TimerSection(t, cur).procs[i];
      b.level == LevelFor(b.total) <==>
      t.procs[i].level == 3 || t.procs[i].burst + 1 < TimeQuantum(t.procs[i].level)
    ensures Accounted(TimerSection(t, cur).procs[i]) <==> t.procs[i].burst + 1 < TimeQuantum(t.procs[i].level)
  {
    assert Used(t.procs[i]) && t.procs[i].pid > 0;
    hide Inv, TimerSection;
    TimerSectionExact(t, cur);
  }

  // ----- init and shells are not pinned to level 3

  ghost predicate SpecialAtLevel3(t: Table)
    requires Shape(t)
  {
    forall i :: 0 <= i < NPROC && Started(t.procs[i]) && !Ordinary(t.procs[i]) ==> t.procs[i].level == 3
  }

  /** Steps after which init and the shells are still at level 3: all but fork by another process
      than init into a slot that was a shell's, whose type allocproc does not reset, and
      set_proc_info by a shell or init to another level. */
  predicate KeepsSpecial(t: Table, e: Event)
    requires Shape(t) && Enabled(t, e)
  {
    match e
    case Forks(cur, np) => t.procs[cur].pid == 1 || Ordinary(t.procs[np])
    case SetsInfo(cur, level, _, _, _, _) => Ordinary(t.procs[cur]) || level == 3
    case _ => true
  }

  lemma StepKeepsSpecialIff(t: Table, e: Event)
    requires Inv(t) && Enabled(t, e) && SpecialAtLevel3(t)
    ensures SpecialAtLevel3(Step(t, e)) <==> KeepsSpecial(t, e)
  {
    hide Inv, Step, EntryChange;
    var t' := Step(t, e);
    StepEntry(t, e);
    if KeepsSpecial(t, e) {
      forall i | 0 <= i < NPROC && Started(t'.procs[i]) && !Ordinary(t'.procs[i]) ensures t'.procs[i].level == 3 {
        SpecialEntry(t, e, i, t'.procs[i]);
      }
    } else {
      var i := if e.Forks? then e.np else e.cur;
      SpecialEntry(t, e, i, t'.procs[i]);
      assert Started(t'.procs[i]) && !Ordinary(t'.procs[i]) && t'.procs[i].level != 3;
    }
  }

  lemma SpecialEntry(t: Table, e: Event, i: int, b: Entry)
    requires Shape(t) && Enabled(t, e) && Slot(i) && SpecialAtLevel3(t) && EntryChange(t, e, i, b)
    ensures KeepsSpecial(t, e) && Started(b) && !Ordinary(b) ==> b.level == 3
    ensures !KeepsSpecial(t, e) && i == (if e.Forks? then e.np else if e.SetsInfo? then e.cur else NOSLOT) ==>
      Started(b) && !Ordinary(b) && b.level != 3
  {
  }

  ghost predicate AlwaysSpecial(r: Run)
    requires IsRun(r)
  {
    SpecialAtLevel3(Final(r)) && (r.Extend? ==> AlwaysSpecial(r.before))
  }

  ghost predicate StepsKeepSpecial(r: Run)
    requires IsRun(r)
  {
    r.Extend? ==> StepsKeepSpecial(r.before) && KeepsSpecial(Final(r.before), r.event)
  }

  /** The description says that init and shells are always at level 3.  Over a run from boot that
      is so exactly when no step is one of those two. */
  lemma {:induction false} SpecialAlwaysIff(r: Run)
    requires IsRun(r) && Start(r) == Boot()
    ensures AlwaysSpecial(r) <==> StepsKeepSpecial(r)
  {
    hide Inv, Step, KeepsSpecial;
    BootInv();
    if r.Extend? {
      hide Boot;
      SpecialAlwaysIff(r.before);
      RunKeepsInv(r.before);
      if AlwaysSpecial(r.before) { StepKeepsSpecialIff(Final(r.before), r.event); }
    }
  }

  // ----- exit and wait

  /** The pids that wait has returned, in order. */
  ghost function Returned(r: Run): seq<int>
    requires IsRun(r)
  {
    if r.Begin? then []
    else if r.event.Waits? && WaitOutcome(Final(r.before), r.event.cur).Reaped?
      then Returned(r.before) + [WaitOutcome(Final(r.before), r.event.cur).pid]
    else Returned(r.before)
  }

  ghost predicate Retired(t: Table, pids: seq<int>)
    requires Shape(t)
  {
    && Distinct(pids)
    && (forall k :: 0 <= k < |pids| ==> 0 < pids[k] < t.nextpid)
    && (forall k, i :: 0 <= k < |pids| && 0 <= i < NPROC && Used(t.procs[i]) ==> t.procs[i].pid != pids[k])
  }

  lemma ReapRetires(t: Table, cur: int, pids: seq<int>)
    requires Inv(t) && IsRunning(t, cur) && WaitOutcome(t, cur).Reaped? && Retired(t, pids)
    ensures Retired(Step(t, Waits(cur)), pids + [WaitOutcome(t, cur).pid])
  {
    hide QueueInv;
    hide Queues;
    hide Parents;
    hide FindZombieChild;
    hide HasChild;
    var t' := Wait(t, cur);
    var z := FindZombieChild(t.procs, cur, 0);
    assert Used(t.procs[z]);
    assert t'.procs == t.procs[z := t'.procs[z]];
  }

  lemma StepKeepsRetired(t: Table, e: Event, pids: seq<int>)
    requires Inv(t) && Enabled(t, e) && Retired(t, pids)
    ensures Retired(Step(t, e), pids)
  {
    hide Inv;
    hide Step;
    StepEntry(t, e);
    var t' := Step(t, e);
    forall k, i | 0 <= k < |pids| && 0 <= i < NPROC && Used(t'.procs[i]) ensures t'.procs[i].pid != pids[k] {
      assert EntryChange(t, e, i, t'.procs[i]);
    }
  }

  /** wait returns each pid at most once over a run, and a returned pid names no process any more. */
  lemma {:induction false} WaitReturnsOnce(r: Run)
    requires IsRun(r) && Inv(Start(r))
    ensures Retired(Final(r), Returned(r))
  {
    hide Inv;
    hide Step;
    if r.Extend? {
      WaitReturnsOnce(r.before);
      RunKeepsInv(r.before);
      if r.event.Waits? && WaitOutcome(Final(r.before), r.event.cur).Reaped? {
        ReapRetires(Final(r.before), r.event.cur, Returned(r.before));
      } else {
        StepKeepsRetired(Final(r.before), r.event, Returned(r.before));
      }
    }
  }
}
