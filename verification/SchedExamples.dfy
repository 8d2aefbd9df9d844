/** Runs from the booted table that reach the cases in which the scheduler departs from its
    description. */
module SchedExamples {
  import opened SchedTable
  import opened SchedSteps
  import opened SchedRuns
  import opened SchedTheorems

  /** Slots 0, 1 and 2 hold these entries and all others are as at boot. */
  ghost predicate Few(t: Table, a: Entry, b: Entry, c: Entry) {
    && Inv(t) && t.initproc == 0
    && t.procs[0] == a && t.procs[1] == b && t.procs[2] == c
    && forall i :: 3 <= i < NPROC ==> t.procs[i] == FreeEntry()
  }

  ghost predicate Reaches(r: Run, a: Entry, b: Entry, c: Entry) {
    IsRun(r) && Start(r) == Boot() && Few(Final(r), a, b, c)
  }

  function Claimed(e: Entry, pid: int): Entry {
    e.(state := Embryo, pid := pid, level := 0, burst := 0, wait := 0, io := 0, endTime := -1, total := 0, entryTime := 0)
  }

  function InitRuns(): Entry {
    InitEntry().(state := Running)
  }

  // ----- single steps

  lemma Goes(r: Run, e: Event)
    requires IsRun(r) && Start(r) == Boot() && Enabled(Final(r), e)
    ensures var r' := Extend(r, e);
      IsRun(r') && Start(r') == Boot() && Final(r') == Step(Final(r), e) && Inv(Final(r'))
  {
    hide Inv, Step, Enabled, Boot;
    BootInv();
    RunKeepsInv(Extend(r, e));
  }

  /** A claim takes the first free slot. */
  lemma Claims(t: Table, i: int)
    requires Inv(t) && Slot(i) && t.procs[i].state == Unused && forall j :: 0 <= j < i ==> t.procs[j].state != Unused
    ensures var t' := Step(t, Allocs);
      t'.procs == t.procs[i := Claimed(t.procs[i], t.nextpid)] && t'.nextpid == t.nextpid + 1 && t'.initproc == t.initproc
      && t'.ticks == t.ticks
  {
    hide Inv, FindUnused;
    assert FindUnused(t.procs, 0) == i;
  }

  lemma Completes(t: Table, cur: int, np: int)
    requires Inv(t) && IsRunning(t, cur) && IsEmbryo(t, np)
    ensures var t' := Step(t, Forks(cur, np));
      && t'.procs == t.procs[np := ForkedEntry(t.procs[cur], cur, t.procs[np]).(entryTime := t.ticks)]
      && t'.nextpid == t.nextpid && t'.initproc == t.initproc && t'.ticks == t.ticks
  {
    hide Inv, Enqueue;
    EnqueueKeepsInv(t, np, ForkedEntry(t.procs[cur], cur, t.procs[np]));
  }

  /** The only RUNNABLE process is the one dispatched. */
  lemma Runs(t: Table, p: int)
    requires Inv(t) && Slot(p) && t.procs[p].state == Runnable
    requires forall i :: 0 <= i < NPROC && i != p ==> t.procs[i].state != Runnable
    ensures var t' := Step(t, Dispatches);
      && t'.procs == t.procs[p := t.procs[p].(state := Running, chan := NoChan)]
      && t'.nextpid == t.nextpid && t'.initproc == t.initproc && t'.ticks == t.ticks
  {
    hide Inv, Dispatch, NextProc;
    PickRefinesScan(t);
    DispatchExact(t);
  }

  // ----- a common beginning: init runs and has forked its first shell

  /** What fork by init makes of a fresh slot. */
  function ShellEntry(pid: int, now: int): Entry {
    ForkedEntry(InitRuns(), 0, Claimed(FreeEntry(), pid)).(entryTime := now)
  }

  lemma InitDispatched() returns (r: Run)
    ensures Reaches(r, InitRuns(), FreeEntry(), FreeEntry()) && Final(r).nextpid == 2 && Final(r).ticks == 0
  {
    hide Boot, Inv, Step;
    r := Begin(Boot());
    BootInv();
    var t := Boot();
    Runs(t, 0);
    Goes(r, Dispatches);
    r := Extend(r, Dispatches);
  }

  lemma FirstShell() returns (r: Run)
    ensures Reaches(r, InitRuns(), ShellEntry(2, 0), FreeEntry()) && Final(r).nextpid == 3 && Final(r).ticks == 0
  {
    r := InitDispatched();
    hide Boot, Inv, Step;
    Claims(Final(r), 1);
    Goes(r, Allocs);
    r := Extend(r, Allocs);
    Completes(Final(r), 0, 1);
    Goes(r, Forks(0, 1));
    r := Extend(r, Forks(0, 1));
  }

  // ----- newest first

  /** A run after which a process queued later stands in front of one of equal io and level. */
  lemma NewestGoesFirst() returns (r: Run, j: int, k: int)
    ensures IsRun(r) && Start(r) == Boot()
    ensures var t := Final(r); var q := t.queues[3];
      && 0 <= j < k < |q| && q[j] == 2 && q[k] == 1
      && t.procs[1].io == t.procs[2].io && t.procs[1].entryTime < t.procs[2].entryTime
  {
    hide Boot, Inv, Step;
    r := FirstShell();
    Counts(Final(r), FreeEntry());
    Goes(r, Ticks);
    r := Extend(r, Ticks);
    Claims(Final(r), 2);
    Goes(r, Allocs);
    r := Extend(r, Allocs);
    var t := Final(r);
    Completes(t, 0, 2);
    Goes(r, Forks(0, 2));
    r := Extend(r, Forks(0, 2));
    k := SecondShellInFront(t, Final(r));
    j := InsertPos(Final(r).procs, t.queues[3], 2, 0);
  }

  /** A tick with nobody asleep. */
  lemma Counts(t: Table, c: Entry)
    requires Few(t, InitRuns(), ShellEntry(2, 0), c) && c.state != Sleeping && t.ticks == 0
    ensures var t' := Step(t, Ticks); t'.procs == t.procs && t'.ticks == 1 && t'.nextpid == t.nextpid && t'.initproc == 0
  {
    hide Inv, Tick;
    TickExact(t);
  }

  lemma SecondShellInFront(t: Table, t': Table) returns (k: int)
    requires Few(t, InitRuns(), ShellEntry(2, 0), Claimed(FreeEntry(), 3)) && t.ticks == 1
    requires t' == Step(t, Forks(0, 2))
    ensures var m := InsertPos(t'.procs, t.queues[3], 2, 0);
      0 <= m < k < |t'.queues[3]| && t'.queues[3][m] == 2 && t'.queues[3][k] == 1
  {
    assert Queued(t, 1) && !Queued(t, 2) && Queues(t);
    hide Inv, QueueInv, Queues, AddToQueue, InsertPos;
    var e := ForkedEntry(t.procs[0], 0, t.procs[2]);
    PutKeepsQueues(t, 2, e);
    var u := Put(t, 2, e);
    var i :| 0 <= i < |t.queues[3]| && t.queues[3][i] == 1;
    QueuesBehindIff(u, 2, 3, i);
    k := i + 1;
  }

  // ----- a shell that is not at level 3

  /** A run in which a shell's slot is reused by a child of another shell, which is then a shell by
      type but at level 0. */
  lemma ShellBelowLevel3() returns (r: Run)
    ensures IsRun(r) && Start(r) == Boot() && !SpecialAtLevel3(Final(r))
    ensures r.Extend? && r.event == Forks(2, 1) && SpecialAtLevel3(Final(r.before)) && Final(r.before).procs[2].pid != 1
  {
    r := ShellReaped();
    hide Boot, Inv, Step;
    Runs(Final(r), 2);
    Goes(r, Dispatches);
    r := Extend(r, Dispatches);
    Claims(Final(r), 1);
    Goes(r, Allocs);
    r := Extend(r, Allocs);
    var t := Final(r);
    assert SpecialAtLevel3(t);
    Completes(t, 2, 1);
    Goes(r, Forks(2, 1));
    r := Extend(r, Forks(2, 1));
    assert Final(r).procs[1].kind == Shell && Final(r).procs[1].level == 0 && Started(Final(r).procs[1]);
  }

  /** A run in which a shell takes itself to level 0. */
  lemma ShellLowersItself() returns (r: Run)
    ensures IsRun(r) && Start(r) == Boot() && !SpecialAtLevel3(Final(r))
    ensures r.Extend? && r.event.SetsInfo? && SpecialAtLevel3(Final(r.before))
  {
    r := FirstShell();
    hide Boot, Inv, Step;
    Runs(Final(r), 1);
    Goes(r, Dispatches);
    r := Extend(r, Dispatches);
    var e := SetsInfo(1, 0, 0, 0, 0, -1);
    assert SpecialAtLevel3(Final(r));
    StepKeepsSpecialIff(Final(r), e);
    Goes(r, e);
    r := Extend(r, e);
  }

  /** Slot 1 is free again and still has a shell's type; a second shell is queued in slot 2. */
  lemma ShellReaped() returns (r: Run)
    ensures IsRun(r) && Start(r) == Boot() && Final(r).procs[1].state == Unused && Final(r).procs[1].kind == Shell
    ensures Reaches(r, InitRuns(), Final(r).procs[1], ShellEntry(3, 0))
  {
    r := ShellGone();
    var t := Final(r);
    var t' := Step(t, Waits(0));
    assert FindZombieChild(t.procs, 0, 0) == 1;
    Goes(r, Waits(0));
    r := Extend(r, Waits(0));
  }

  lemma ShellGone() returns (r: Run)
    ensures IsRun(r) && Start(r) == Boot()
    ensures var z := Final(r).procs[1]; z.state == Zombie && z.kind == Shell && z.parent == 0
    ensures Reaches(r, InitRuns(), Final(r).procs[1], ShellEntry(3, 0))
  {
    r := FirstShell();
    hide Boot, Inv, Step;
    Runs(Final(r), 1);
    Goes(r, Dispatches);
    r := Extend(r, Dispatches);
    Claims(Final(r), 2);
    Goes(r, Allocs);
    r := Extend(r, Allocs);
    Completes(Final(r), 0, 2);
    Goes(r, Forks(0, 2));
    r := Extend(r, Forks(0, 2));
    Leaves(Final(r));
    Goes(r, Exits(1));
    r := Extend(r, Exits(1));
  }

  lemma Leaves(t: Table)
    requires Few(t, InitRuns(), ShellEntry(2, 0).(state := Running), ShellEntry(3, 0))
    ensures var t' := Step(t, Exits(1));
      && t'.procs[0] == t.procs[0] && t'.procs[2] == t.procs[2] && t'.initproc == 0
      && t'.procs[1] == t.procs[1].(state := Zombie)
      && forall i :: 3 <= i < NPROC ==> t'.procs[i] == FreeEntry()
  {
    hide Inv, Exit;
    ExitExact(t, 1);
    ExitWakes(t, 1);
    hide AfterExit;
    var t' := Exit(t, 1);
    forall i | 0 <= i < NPROC && i != 1 ensures t'.procs[i] == t.procs[i] {
      assert Survived(t.procs[i], t'.procs[i], 1, 0);
    }
  }

  // ----- a quantum that runs out unnoticed

  /** A run with two CPUs after which an ordinary process that nobody promoted has had the ten ticks of level 0 and
      is still there. */
  lemma QuantumRunsOutUnnoticed() returns (r: Run)
    ensures IsRun(r) && Start(r) == Boot() && Inv(Final(r))
    ensures IsRunning(Final(r), 0) && IsRunning(Final(r), 2)
    ensures var e := Final(r).procs[2]; Ordinary(e) && !e.killed && e.total == 10 && e.level == 0 != LevelFor(e.total)
  {
    r := ChildRuns();
    r := Charges(r, 10);
  }

  /** The child of a shell runs beside init. */
  lemma ChildRuns() returns (r: Run)
    ensures IsRun(r) && Start(r) == Boot() && Inv(Final(r)) && Charged(Final(r), 0)
  {
    r := FirstShell();
    hide Boot, Inv, Step;
    Runs(Final(r), 1);
    Goes(r, Dispatches);
    r := Extend(r, Dispatches);
    Claims(Final(r), 2);
    Goes(r, Allocs);
    r := Extend(r, Allocs);
    Completes(Final(r), 1, 2);
    Goes(r, Forks(1, 2));
    r := Extend(r, Forks(1, 2));
    Runs(Final(r), 2);
    Goes(r, Dispatches);
    r := Extend(r, Dispatches);
  }

  /** Init and the ordinary process in slot 2 run, and the latter has been charged n ticks. */
  ghost predicate Charged(t: Table, n: int) {
    && Shape(t) && IsRunning(t, 0) && IsRunning(t, 2)
    && var e := t.procs[2]; Ordinary(e) && !e.killed && e.pid > 0 && e.level == 0 && e.burst == e.total == n
  }

  /** Timer interrupts taken while init runs on the other CPU. */
  lemma {:induction false} Charges(r: Run, n: nat) returns (r': Run)
    requires IsRun(r) && Start(r) == Boot() && Inv(Final(r)) && Charged(Final(r), 0)
    ensures IsRun(r') && Start(r') == Boot() && Inv(Final(r')) && Charged(Final(r'), n)
  {
    hide Boot, Inv, Step, Charged;
    r' := r;
    if n > 0 {
      r' := Charges(r, n - 1);
      ChargesOnce(Final(r'), n - 1);
      Goes(r', Timer(0));
      r' := Extend(r', Timer(0));
    }
  }

  lemma ChargesOnce(t: Table, n: int)
    requires Inv(t) && Charged(t, n)
    ensures Enabled(t, Timer(0)) && Charged(Step(t, Timer(0)), n + 1)
  {
    hide Inv, TimerSection;
    TimerSectionExact(t, 0);
  }
}
