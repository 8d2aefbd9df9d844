/** What each step means to the processes.  `Effect` writes out, field by field and without the
    functions that the steps are made of, what every step leaves in every slot; every step is proved
    to do that.  The lemmas after it say what the steps do for each other: sleep and wakeup, fork and
    wait, the counters over whole runs, the time limit. */
module SchedEffects {
  import opened SchedTable
  import opened SchedSteps
  import opened SchedRuns
  import opened SchedTheorems

  // ----- the reference, field by field

  predicate Sleeper(e: Entry, chan: Chan) {
    e.state == Sleeping && e.chan == chan
  }

  function Awake(e: Entry, now: int): Entry {
    e.(state := Runnable, entryTime := now)
  }

  ghost predicate HasKid(t: Table, cur: int)
    requires Shape(t)
  {
    exists i :: 0 <= i < NPROC && t.procs[i].parent == cur
  }

  ghost predicate HasZombieKid(t: Table, cur: int)
    requires Shape(t)
  {
    exists i :: 0 <= i < NPROC && t.procs[i].parent == cur && t.procs[i].state == Zombie
  }

  /** A timer interrupt: a RUNNING process is charged a tick, a RUNNABLE one has waited one more and
      rises a level at 250 if it is ordinary and can, a SLEEPING one has done one more of I/O.  The
      interrupted one is killed if it has reached its time limit, and otherwise, if it is ordinary,
      not killed and has used up 10, 20, 40 or 80 ticks, falls a level or starts again at level 3. */
  function TimerEffect(a: Entry, interrupted: bool, now: int): Entry {
    match a.state
    case Running =>
      var b := a.(burst := a.burst + 1, total := a.total + 1);
      if !interrupted then b
      else if b.endTime > 0 && b.total >= b.endTime then b.(killed := true)
      else if b.killed || b.kind != Idle then b
      else if b.level == 0 && b.burst >= 10 then b.(level := 1, burst := 0, wait := 0, io := 0)
      else if b.level == 1 && b.burst >= 20 then b.(level := 2, burst := 0, wait := 0, io := 0)
      else if b.level == 2 && b.burst >= 40 then b.(level := 3, burst := 0, wait := 0, io := 0)
      else if b.level == 3 && b.burst >= 80 then b.(burst := 0)
      else b
    case Runnable =>
      if a.kind == Idle && a.level >= 1 && a.wait + 1 >= 250
      then a.(level := a.level - 1, wait := 0, burst := 0, entryTime := now) else a.(wait := a.wait + 1)
    case Sleeping => a.(io := a.io + 1)
    case _ => a
  }

  /** What the step leaves in slot i.  A dispatch starts some RUNNABLE process; which one is
      PickRefinesScan. */
  ghost predicate Effect(t: Table, e: Event, i: int, b: Entry)
    requires Shape(t) && Enabled(t, e) && Slot(i)
  {
    var a, now := t.procs[i], t.ticks;
    match e
    case Ticks => b == if Sleeper(a, OnTicks) then Awake(a, (now + 1) % 0x1_0000_0000) else a
    case Timer(cur) => b == TimerEffect(a, i == cur, now)
    case Dispatches => b == a || (a.state == Runnable && b == a.(state := Running, chan := NoChan))
    case Yields(cur) => b == if i == cur then Awake(a, now) else a
    case Sleeps(cur, chan) => b == if i == cur then a.(state := Sleeping, chan := chan) else a
    case Wakes(chan) => b == if Sleeper(a, chan) then Awake(a, now) else a
    case Kills(pid) =>
      var hit := a.pid == pid && forall j :: 0 <= j < i ==> t.procs[j].pid != pid;
      b == if !hit then a else if a.state == Sleeping then Awake(a, now).(killed := true) else a.(killed := true)
    case Faults(cur) => b == if i == cur then a.(killed := true) else a
    case SetsInfo(cur, level, burst, wait, io, endTime) =>
      b == if i == cur then a.(level := level, burst := burst, wait := wait, io := io, endTime := endTime) else a
    case Allocs =>
      var first := a.state == Unused && forall j :: 0 <= j < i ==> t.procs[j].state != Unused;
      b == if !first then a else a.(state := Embryo, pid := t.nextpid, level := 0, burst := 0, wait := 0, io := 0,
                                    endTime := -1, total := 0, entryTime := 0)
    case ForkFails(np) => b == if i == np then a.(state := Unused, kstack := false) else a
    case Forks(cur, np) =>
      var ofInit := t.procs[cur].pid == 1;
      b == if i != np then a
           else a.(state := Runnable, kstack := true, parent := cur, level := if ofInit then 3 else 0,
                   kind := if ofInit then Shell else a.kind, burst := 0, wait := 0, io := 0, endTime := -1,
                   total := 0, entryTime := now)
    case Exits(cur) =>
      var zombie := HasZombieKid(t, cur);
      var parent := t.procs[cur].parent;
      var woken := i != cur && ((0 <= parent && Sleeper(a, OnProc(parent))) || (zombie && Sleeper(a, OnProc(t.initproc))));
      b == a.(parent := if a.parent == cur then t.initproc else a.parent,
              state := if i == cur then Zombie else if woken then Runnable else a.state,
              entryTime := if woken then now else a.entryTime)
    case Waits(cur) =>
      var zombie := HasZombieKid(t, cur);
      var first := a.parent == cur && a.state == Zombie
        && forall j :: 0 <= j < i ==> !(t.procs[j].parent == cur && t.procs[j].state == Zombie);
      var sleeps := i == cur && !zombie && !a.killed && HasKid(t, cur);
      b == if first then a.(state := Unused, pid := 0, parent := NOSLOT, kstack := false, killed := false)
           else if sleeps then a.(state := Sleeping, chan := OnProc(cur)) else a
  }

  /** Every step leaves in every slot what the reference says, and moves the clock, the next pid and
      nothing else beside the queues. */
  lemma StepEffect(t: Table, e: Event)
    requires Inv(t) && Enabled(t, e)
    ensures var t' := Step(t, e);
      && (forall i :: 0 <= i < NPROC ==> Effect(t, e, i, t'.procs[i]))
      && t'.initproc == t.initproc
      && t'.ticks == (if e.Ticks? then (t.ticks + 1) % 0x1_0000_0000 else t.ticks)
      && t'.nextpid == (if e.Allocs? && exists i :: 0 <= i < NPROC && t.procs[i].state == Unused then t.nextpid + 1
                        else t.nextpid)
  {
    hide QueueInv, Queues, Pids, AddToQueue, Wakeup, TimerSection, Dispatch, Exit, Tick, Wait, Kill, FindUnused, AllocProc;
    match e {
      case Ticks => TickExact(t);
      case Timer(cur) => TimerSectionExact(t, cur); TimerEffects(t, cur);
      case Dispatches => DispatchExact(t);
      case Yields(cur) => EnqueueKeepsInv(t, cur, t.procs[cur].(state := Runnable));
      case Wakes(chan) => WakeupExact(t, chan);
      case Kills(pid) => KillEffect(t, pid);
      case Allocs => AllocEffect(t);
      case Forks(cur, np) => EnqueueKeepsInv(t, np, ForkedEntry(t.procs[cur], cur, t.procs[np]));
      case Exits(cur) => ExitEffect(t, cur);
      case Waits(cur) => WaitEffect(t, cur);
      case _ =>
    }
  }

  lemma TimerEffects(t: Table, cur: int)
    requires Shape(t) && Pids(t) && IsRunning(t, cur)
    ensures forall i :: 0 <= i < NPROC ==> AfterTimer(t.procs[i], i == cur, t.ticks) == TimerEffect(t.procs[i], i == cur, t.ticks)
  {
    forall i | 0 <= i < NPROC
      ensures AfterTimer(t.procs[i], i == cur, t.ticks) == TimerEffect(t.procs[i], i == cur, t.ticks)
    {
      assert Live(t.procs[i]) ==> t.procs[i].pid > 0;
      TimerIs(t.procs[i], i == cur, t.ticks);
    }
  }

  lemma TimerIs(a: Entry, interrupted: bool, now: int)
    requires 0 <= a.level < NLEVEL && (interrupted ==> a.state == Running) && (Live(a) ==> a.pid > 0)
    ensures AfterTimer(a, interrupted, now) == TimerEffect(a, interrupted, now)
  {
  }

  lemma KillEffect(t: Table, pid: int)
    requires QueueInv(t)
    ensures var t' := Kill(t, pid);
      && (forall i :: 0 <= i < NPROC ==> Effect(t, Kills(pid), i, t'.procs[i]))
      && t'.initproc == t.initproc && t'.ticks == t.ticks && t'.nextpid == t.nextpid
  {
    hide QueueInv, Kill;
    KillExact(t, pid);
    var k := FindPid(t.procs, pid, 0);
    hide FindPid;
    assert forall i :: 0 <= i < NPROC && i != k && t.procs[i].pid == pid ==> k < i && t.procs[k].pid == pid;
  }

  lemma AllocEffect(t: Table)
    requires Shape(t)
    ensures var t' := AllocProc(t);
      && (forall i :: 0 <= i < NPROC ==> Effect(t, Allocs, i, t'.procs[i]))
      && t'.initproc == t.initproc && t'.ticks == t.ticks
      && t'.nextpid == if exists i :: 0 <= i < NPROC && t.procs[i].state == Unused then t.nextpid + 1 else t.nextpid
  {
    var k := FindUnused(t.procs, 0);
    hide FindUnused;
    assert forall i :: 0 <= i < NPROC && i != k && t.procs[i].state == Unused ==> k < i && t.procs[k].state == Unused;
  }

  lemma ExitEffect(t: Table, cur: int)
    requires Inv(t) && IsRunning(t, cur) && cur != t.initproc
    ensures var t' := Exit(t, cur);
      && (forall i :: 0 <= i < NPROC ==> Effect(t, Exits(cur), i, t'.procs[i]))
      && t'.initproc == t.initproc && t'.ticks == t.ticks && t'.nextpid == t.nextpid
  {
    assert HasLiveParent(t, cur);
    assert HasZombieKid(t, cur) == ZombieFrom(t, cur, 0);
    var zombie := HasZombieKid(t, cur);
    hide Inv, QueueInv, Pids, Parents, Exit, AfterExit, HasZombieKid, ZombieFrom, HasLiveParent;
    ExitExact(t, cur);
    var t' := Exit(t, cur);
    forall i | 0 <= i < NPROC && i != cur ensures Effect(t, Exits(cur), i, t'.procs[i]) {
      AfterExitIs(t.procs[i], cur, t.procs[cur].parent, t.initproc, zombie, t.ticks);
    }
  }

  lemma AfterExitIs(a: Entry, cur: int, parent: int, init: int, zombie: bool, now: int)
    requires Slot(parent)
    ensures var woken := Sleeper(a, OnProc(parent)) || (zombie && Sleeper(a, OnProc(init)));
      AfterExit(a, cur, parent, init, zombie, now) ==
      a.(parent := if a.parent == cur then init else a.parent, state := if woken then Runnable else a.state,
         entryTime := if woken then now else a.entryTime)
  {
  }

  lemma WaitEffect(t: Table, cur: int)
    requires Shape(t) && IsRunning(t, cur)
    ensures var t' := Wait(t, cur);
      && (forall i :: 0 <= i < NPROC ==> Effect(t, Waits(cur), i, t'.procs[i]))
      && t'.initproc == t.initproc && t'.ticks == t.ticks && t'.nextpid == t.nextpid
  {
    var z := FindZombieChild(t.procs, cur, 0);
    hide FindZombieChild;
    if z < NPROC {
      assert t.procs[z].parent == cur && t.procs[z].state == Zombie;
    }
  }

  // ----- sleep and wakeup

  /** A sleeper is woken by a wakeup on the channel it sleeps on and by no other. */
  lemma SleeperWokenIff(t: Table, cur: int, chan: Chan, c: Chan)
    requires Inv(t) && Enabled(t, Sleeps(cur, chan))
    ensures var t1 := Step(t, Sleeps(cur, chan)); var t2 := Step(t1, Wakes(c));
      && t1.procs[cur].state == Sleeping
      && (t2.procs[cur].state == Runnable <==> c == chan)
      && (c == chan ==> Queued(t2, cur))
  {
    hide Inv, Step;
    StepKeepsInv(t, Sleeps(cur, chan));
    StepEffect(t, Sleeps(cur, chan));
    var t1 := Step(t, Sleeps(cur, chan));
    assert Effect(t, Sleeps(cur, chan), cur, t1.procs[cur]);
    StepKeepsInv(t1, Wakes(c));
    StepEffect(t1, Wakes(c));
    var t2 := Step(t1, Wakes(c));
    assert Effect(t1, Wakes(c), cur, t2.procs[cur]);
    RunnableIsQueued(t2, cur);
  }

  /** A process asleep until the next tick is awake after it. */
  lemma TickSleeperWoken(t: Table, cur: int)
    requires Inv(t) && Enabled(t, Sleeps(cur, OnTicks))
    ensures Step(Step(t, Sleeps(cur, OnTicks)), Ticks).procs[cur].state == Runnable
  {
    hide Inv, Step;
    var t1 := Step(t, Sleeps(cur, OnTicks));
    StepKeepsInv(t, Sleeps(cur, OnTicks));
    StepEffect(t, Sleeps(cur, OnTicks));
    assert Effect(t, Sleeps(cur, OnTicks), cur, t1.procs[cur]);
    StepEffect(t1, Ticks);
    assert Effect(t1, Ticks, cur, Step(t1, Ticks).procs[cur]);
  }

  lemma RunnableIsQueued(t: Table, i: int)
    requires Inv(t) && Slot(i)
    ensures Queued(t, i) <==> t.procs[i].state == Runnable
  {
  }

  /** yield puts the caller back on the queue of its level. */
  lemma YieldRequeues(t: Table, cur: int)
    requires Inv(t) && IsRunning(t, cur)
    ensures var t' := Step(t, Yields(cur));
      && t'.procs[cur] == t.procs[cur].(state := Runnable, entryTime := t.ticks) && cur in t'.queues[t.procs[cur].level]
      && forall i :: 0 <= i < NPROC && i != cur ==> t'.procs[i] == t.procs[i]
  {
    hide Inv, Step;
    var t' := Step(t, Yields(cur));
    StepKeepsInv(t, Yields(cur));
    StepEffect(t, Yields(cur));
    assert Effect(t, Yields(cur), cur, t'.procs[cur]);
    RunnableIsQueued(t', cur);
    forall i | 0 <= i < NPROC && i != cur ensures t'.procs[i] == t.procs[i] {
      assert Effect(t, Yields(cur), i, t'.procs[i]);
    }
  }

  // ----- fork, exit and wait

  /** wait returns a child iff one is a zombie; otherwise it fails iff the caller has no child or is
      killed, and sleeps iff not. */
  lemma WaitOutcomeIff(t: Table, cur: int)
    requires Shape(t) && Slot(cur)
    ensures var r := WaitOutcome(t, cur);
      && (r.Reaped? <==> HasZombieKid(t, cur))
      && (r.NoChildren? <==> !HasZombieKid(t, cur) && (!HasKid(t, cur) || t.procs[cur].killed))
      && (r.Slept? <==> !HasZombieKid(t, cur) && HasKid(t, cur) && !t.procs[cur].killed)
      && (r.Reaped? ==>
            exists i :: 0 <= i < NPROC && t.procs[i].parent == cur && t.procs[i].state == Zombie && t.procs[i].pid == r.pid)
  {
    var z := FindZombieChild(t.procs, cur, 0);
    hide FindZombieChild;
    if z < NPROC { assert t.procs[z].parent == cur && t.procs[z].state == Zombie; }
  }

  /** fork makes the caller the parent: its next wait has a child to wait for. */
  lemma ForkGivesChild(t: Table, cur: int, np: int)
    requires Inv(t) && Enabled(t, Forks(cur, np))
    ensures var t' := Step(t, Forks(cur, np));
      && t'.procs[np].parent == cur && t'.procs[np].state == Runnable && Queued(t', np)
      && t'.procs[cur] == t.procs[cur]
      && (!t'.procs[cur].killed ==> !WaitOutcome(t', cur).NoChildren?)
  {
    hide Inv, Step;
    var e, t' := Forks(cur, np), Step(t, Forks(cur, np));
    StepKeepsInv(t, e);
    StepEffect(t, e);
    assert Effect(t, e, np, t'.procs[np]) && Effect(t, e, cur, t'.procs[cur]);
    RunnableIsQueued(t', np);
    WaitOutcomeIff(t', cur);
    assert HasKid(t', cur);
  }

  /** A parent asleep in wait is woken when a child exits, and its wait then returns one. */
  lemma WaiterIsWoken(t: Table, cur: int, i: int)
    requires Inv(t) && IsRunning(t, cur) && WaitOutcome(t, cur).Slept?
    requires IsRunning(t, i) && i != cur && i != t.initproc && t.procs[i].parent == cur
    ensures var t1 := Step(t, Waits(cur));
      && t1.procs[cur].state == Sleeping && Enabled(t1, Exits(i))
      && var t2 := Step(t1, Exits(i));
      && t2.procs[cur].state == Runnable && Queued(t2, cur) && WaitOutcome(t2, cur).Reaped?
  {
    hide Inv, Step, WaitOutcome;
    WaitOutcomeIff(t, cur);
    var t1 := Step(t, Waits(cur));
    StepKeepsInv(t, Waits(cur));
    StepEffect(t, Waits(cur));
    assert Effect(t, Waits(cur), cur, t1.procs[cur]) && Effect(t, Waits(cur), i, t1.procs[i]);
    var t2 := Step(t1, Exits(i));
    StepKeepsInv(t1, Exits(i));
    StepEffect(t1, Exits(i));
    assert Effect(t1, Exits(i), cur, t2.procs[cur]) && Effect(t1, Exits(i), i, t2.procs[i]);
    RunnableIsQueued(t2, cur);
    WaitOutcomeIff(t2, cur);
    assert HasZombieKid(t2, cur);
  }

  // ----- the counters over runs

  /** Slot i holds the same process in the same state all through the run. */
  ghost predicate StaysIn(r: Run, i: int, state: ProcState)
    requires IsRun(r) && Slot(i)
  {
    && Final(r).procs[i].state == state && Final(r).procs[i].pid == Start(r).procs[i].pid
    && (r.Extend? ==> StaysIn(r.before, i, state))
  }

  /** While a process sleeps its I/O time counts the timer interrupts; while it runs its CPU time
      does.  Its CPU time does not count what it sleeps or waits. */
  lemma {:induction false} CountersCount(r: Run, i: int, state: ProcState)
    requires IsRun(r) && Inv(Start(r)) && Slot(i) && StaysIn(r, i, state)
    requires state == Sleeping || state == Running || state == Runnable
    ensures var a, b := Start(r).procs[i], Final(r).procs[i];
      && b.total == a.total + (if state == Running then TimerSteps(r) else 0)
      && (state == Sleeping ==> b.io == a.io + TimerSteps(r))
      && (state == Runnable ==> b.io == a.io)
  {
    hide Inv, Step;
    if r.Extend? {
      CountersCount(r.before, i, state);
      RunKeepsInv(r.before);
      CountOnce(Final(r.before), r.event, i);
    }
  }

  lemma CountOnce(t: Table, e: Event, i: int)
    requires Inv(t) && Enabled(t, e) && Slot(i)
    requires Live(t.procs[i]) && Step(t, e).procs[i].state == t.procs[i].state
    ensures var a, b := t.procs[i], Step(t, e).procs[i]; var n := if e.Timer? then 1 else 0;
      && b.total == a.total + (if a.state == Running then n else 0)
      && (a.state == Sleeping ==> b.io == a.io + n)
      && (a.state == Runnable ==> b.io == a.io)
  {
    hide Inv, Step, Effect;
    StepEffect(t, e);
    EffectCounts(t, e, i, Step(t, e).procs[i]);
  }

  lemma EffectCounts(t: Table, e: Event, i: int, b: Entry)
    requires Shape(t) && Enabled(t, e) && Slot(i) && Live(t.procs[i]) && Effect(t, e, i, b)
    requires b.state == t.procs[i].state
    ensures var a := t.procs[i]; var n := if e.Timer? then 1 else 0;
      && b.total == a.total + (if a.state == Running then n else 0)
      && (a.state == Sleeping ==> b.io == a.io + n)
      && (a.state == Runnable ==> b.io == a.io)
  {
  }

  // ----- the time limit

  /** The interrupted process is killed exactly at the interrupt that brings its CPU time to its
      limit, or stays killed; nobody else's mark changes. */
  lemma LimitKillsIff(t: Table, cur: int)
    requires Inv(t) && IsRunning(t, cur)
    ensures var t' := Step(t, Timer(cur)); var a := t.procs[cur];
      && (t'.procs[cur].killed <==> a.killed || (a.endTime > 0 && a.total + 1 >= a.endTime))
      && forall i :: 0 <= i < NPROC && i != cur ==> t'.procs[i].killed == t.procs[i].killed
  {
    hide Inv, Step, TimerEffect;
    StepEffect(t, Timer(cur));
    var t' := Step(t, Timer(cur));
    forall i | 0 <= i < NPROC ensures t'.procs[i].killed <==> TimerEffect(t.procs[i], i == cur, t.ticks).killed {
      assert Effect(t, Timer(cur), i, t'.procs[i]);
    }
    forall i | 0 <= i < NPROC { TimerKills(t.procs[i], i == cur, t.ticks); }
  }

  lemma TimerKills(a: Entry, interrupted: bool, now: int)
    ensures TimerEffect(a, interrupted, now).killed <==>
      a.killed || (interrupted && a.state == Running && a.endTime > 0 && a.total + 1 >= a.endTime)
  {
  }
}
