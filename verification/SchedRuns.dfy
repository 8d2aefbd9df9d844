/** The scheduler as a state machine whose steps are the critical sections of proc.c and trap.c,
    in any order and by any process allowed to take them, and what holds over all its runs. */
module SchedRuns {
  import opened SchedTable
  import opened SchedSteps

  // ----- events

  datatype Event =
    | Ticks
    | Timer(cur: int)
    | Dispatches
    | Yields(cur: int)
    | Sleeps(cur: int, chan: Chan)
    | Wakes(chan: Chan)
    | Kills(pid: int)
    | Faults(cur: int)
    | SetsInfo(cur: int, level: int, burst: int, wait: int, io: int, endTime: int)
    | Allocs
    | ForkFails(np: int)
    | Forks(cur: int, np: int)
    | Exits(cur: int)
    | Waits(cur: int)

  predicate IsRunning(t: Table, i: int)
    requires Shape(t)
  {
    Slot(i) && t.procs[i].state == Running
  }

  predicate IsEmbryo(t: Table, i: int)
    requires Shape(t)
  {
    Slot(i) && t.procs[i].state == Embryo
  }

  /** Who may take a step: the caller runs; fork completes or gives up on a slot that has been
      claimed; init does not exit (the kernel panics); only wait sleeps on a process; set_proc_info
      stays within the documented levels, as SetInfoKeepsInvIff shows it must. */
  predicate Enabled(t: Table, e: Event)
    requires Shape(t)
  {
    match e
    case Ticks => true
    case Timer(cur) => IsRunning(t, cur)
    case Dispatches => true
    case Yields(cur) => IsRunning(t, cur)
    case Sleeps(cur, chan) => IsRunning(t, cur) && (chan.OnTicks? || chan.OnAddress?)
    case Wakes(chan) => true
    case Kills(pid) => true
    case Faults(cur) => IsRunning(t, cur)
    case SetsInfo(cur, level, _, _, _, _) => IsRunning(t, cur) && 0 <= level < NLEVEL
    case Allocs => true
    case ForkFails(np) => IsEmbryo(t, np)
    case Forks(cur, np) => IsRunning(t, cur) && IsEmbryo(t, np)
    case Exits(cur) => IsRunning(t, cur) && cur != t.initproc
    case Waits(cur) => IsRunning(t, cur)
  }

  function Step(t: Table, e: Event): (r: Table)
    requires Shape(t) && Enabled(t, e)
    ensures Shape(r)
  {
    match e
    case Ticks => Tick(t)
    case Timer(cur) => TimerSection(t, cur)
    case Dispatches => Dispatch(t)
    case Yields(cur) => Yield(t, cur)
    case Sleeps(cur, chan) => Sleep(t, cur, chan)
    case Wakes(chan) => Wakeup(t, chan)
    case Kills(pid) => Kill(t, pid)
    case Faults(cur) => Put(t, cur, t.procs[cur].(killed := true))
    case SetsInfo(cur, level, burst, wait, io, endTime) => SetProcInfo(t, cur, level, burst, wait, io, endTime)
    case Allocs => AllocProc(t)
    case ForkFails(np) => ForkFail(t, np)
    case Forks(cur, np) => ForkOk(t, cur, np)
    case Exits(cur) => Exit(t, cur)
    case Waits(cur) => Wait(t, cur)
  }

  // ----- the family invariant

  predicate Started(e: Entry) {
    Live(e) || e.state == Zombie
  }

  /** p is asleep inside wait. */
  predicate InWait(t: Table, p: int)
    requires Shape(t) && Slot(p)
  {
    SleepsOn(t.procs[p], OnProc(p))
  }

  predicate HasLiveParent(t: Table, i: int)
    requires Shape(t) && Slot(i)
  {
    Slot(t.procs[i].parent) && t.procs[i].parent != i && Live(t.procs[t.procs[i].parent])
  }

  ghost predicate Pids(t: Table)
    requires Shape(t)
  {
    && 1 < t.nextpid
    && t.procs[t.initproc].pid == 1
    && (forall i :: 0 <= i < NPROC && Used(t.procs[i]) ==> 0 < t.procs[i].pid < t.nextpid)
    && (forall i, j :: 0 <= i < j < NPROC && Used(t.procs[i]) && Used(t.procs[j]) ==> t.procs[i].pid != t.procs[j].pid)
  }

  /** init lives; every other started process has a live parent, which is not asleep in wait when
      the child is a zombie; started processes have kernel stacks; idle slots have no parent. */
  ghost predicate Parents(t: Table)
    requires Shape(t)
  {
    && Live(t.procs[t.initproc])
    && t.procs[t.initproc].parent == NOSLOT
    && (forall i :: 0 <= i < NPROC && Started(t.procs[i]) ==> t.procs[i].kstack)
    && (forall i :: 0 <= i < NPROC && !Started(t.procs[i]) ==> t.procs[i].parent == NOSLOT)
    && (forall i {:trigger HasLiveParent(t, i)} ::
          0 <= i < NPROC && Started(t.procs[i]) && i != t.initproc ==>
            HasLiveParent(t, i) && (t.procs[i].state == Zombie ==> !InWait(t, t.procs[i].parent)))
  }

  ghost predicate Inv(t: Table)
    ensures Inv(t) ==> QueueInv(t)
  {
    QueueInv(t) && Pids(t) && Parents(t)
  }

  // ----- every step keeps the invariant

  /** Neither table can be told from the other by pids, parents, kernel stacks and by who is
      started and who is a zombie, and nobody has newly gone to sleep in wait. */
  ghost predicate SameFamily(t: Table, t': Table)
    requires Shape(t) && Shape(t')
  {
    && t'.nextpid == t.nextpid && t'.initproc == t.initproc
    && forall i :: 0 <= i < NPROC ==>
        var a, b := t.procs[i], t'.procs[i];
        && b.pid == a.pid && b.parent == a.parent && b.kstack == a.kstack
        && (Live(b) <==> Live(a))
        && (!Live(b) ==> b.state == a.state)
        && (SleepsOn(b, OnProc(i)) ==> SleepsOn(a, OnProc(i)))
  }

  lemma SameFamilyKeeps(t: Table, t': Table)
    requires Shape(t) && Pids(t) && Parents(t) && Shape(t') && SameFamily(t, t')
    ensures Pids(t') && Parents(t')
  {
    forall i | 0 <= i < NPROC && Started(t'.procs[i]) && i != t'.initproc
      ensures HasLiveParent(t', i) && (t'.procs[i].state == Zombie ==> !InWait(t', t'.procs[i].parent))
    {
      assert HasLiveParent(t, i);
    }
  }

  /** What exit's loop does to an entry: hand it to init if it is a child that the loop visits, and
      wake it if it waits as init does and a zombie is handed over. */
  predicate Adopted(a: Entry, b: Entry, cur: int, init: int, visited: bool, woke: bool, now: int) {
    var a' := a.(parent := if visited && a.parent == cur then init else a.parent);
    b == if woke && SleepsOn(a, OnProc(init)) then a'.(state := Runnable, entryTime := now) else a'
  }

  ghost predicate ZombieFrom(t: Table, cur: int, i: nat)
    requires Shape(t)
  {
    exists j :: i <= j < NPROC && t.procs[j].parent == cur && t.procs[j].state == Zombie
  }

  lemma PutParentKeepsInv(t: Table, i: int, parent: int)
    requires QueueInv(t) && Slot(i)
    ensures QueueInv(Put(t, i, t.procs[i].(parent := parent)))
  {
  }

  /** What the loop has done from slot i on: exactly the children of cur are init's, and exactly if
      one of them is a zombie those who sleep as init does in wait are awake. */
  ghost predicate Reparented(t: Table, t': Table, cur: int, i: nat)
    requires Shape(t)
    ensures Reparented(t, t', cur, i) ==> QueueInv(t')
  {
    && QueueInv(t')
    && t' == t.(procs := t'.procs, queues := t'.queues)
    && (forall j :: 0 <= j < NPROC ==>
          Adopted(t.procs[j], t'.procs[j], cur, t.initproc, i <= j, ZombieFrom(t, cur, i), t.ticks))
  }

  lemma {:induction false} ReparentExact(t: Table, cur: int, i: nat)
    requires QueueInv(t) && i <= NPROC && cur != t.initproc
    ensures Reparented(t, Reparent(t, cur, i), cur, i)
    decreases NPROC - i
  {
    hide QueueInv, Queues, Wakeup;
    if i < NPROC {
      hide Reparented;
      var t' := Reparent(t, cur, i);
      if t.procs[i].parent != cur {
        ReparentExact(t, cur, i + 1);
        SkipOther(t, t', cur, i);
      } else {
        var t1 := Put(t, i, t.procs[i].(parent := t.initproc));
        PutParentKeepsInv(t, i, t.initproc);
        if t.procs[i].state == Zombie {
          WakeupExact(t1, OnProc(t.initproc));
          ReparentExact(Wakeup(t1, OnProc(t.initproc)), cur, i + 1);
          AdoptZombie(t, Wakeup(t1, OnProc(t.initproc)), t', cur, i);
        } else {
          ReparentExact(t1, cur, i + 1);
          AdoptLive(t, t', cur, i);
        }
      }
    }
  }

  lemma SkipOther(t: Table, t': Table, cur: int, i: nat)
    requires Shape(t) && i < NPROC && t.procs[i].parent != cur && Reparented(t, t', cur, i + 1)
    ensures Reparented(t, t', cur, i)
  {
    hide QueueInv;
    assert ZombieFrom(t, cur, i) <==> ZombieFrom(t, cur, i + 1);
    hide ZombieFrom;
  }

  lemma AdoptLive(t: Table, t': Table, cur: int, i: nat)
    requires Shape(t) && i < NPROC && cur != t.initproc && t.procs[i].parent == cur && t.procs[i].state != Zombie
    requires Reparented(Put(t, i, t.procs[i].(parent := t.initproc)), t', cur, i + 1)
    ensures Reparented(t, t', cur, i)
  {
    hide QueueInv;
    var t1 := Put(t, i, t.procs[i].(parent := t.initproc));
    SameZombies(t, t1, cur, i);
    hide ZombieFrom;
    forall j | 0 <= j < NPROC
      ensures Adopted(t.procs[j], t'.procs[j], cur, t.initproc, i <= j, ZombieFrom(t, cur, i), t.ticks)
    {
      assert Adopted(t1.procs[j], t'.procs[j], cur, t.initproc, i + 1 <= j, ZombieFrom(t1, cur, i + 1), t.ticks);
    }
  }

  lemma SameZombies(t: Table, t1: Table, cur: int, i: nat)
    requires Shape(t) && Shape(t1) && i < NPROC && !(t.procs[i].parent == cur && t.procs[i].state == Zombie)
    requires forall j :: i < j < NPROC ==>
      t1.procs[j].parent == t.procs[j].parent && (t1.procs[j].state == Zombie <==> t.procs[j].state == Zombie)
    ensures ZombieFrom(t1, cur, i + 1) <==> ZombieFrom(t, cur, i)
  {
    if ZombieFrom(t, cur, i) {
      var j :| i <= j < NPROC && t.procs[j].parent == cur && t.procs[j].state == Zombie;
      assert i + 1 <= j && t1.procs[j].parent == cur && t1.procs[j].state == Zombie;
    }
    if ZombieFrom(t1, cur, i + 1) {
      var j :| i + 1 <= j < NPROC && t1.procs[j].parent == cur && t1.procs[j].state == Zombie;
      assert t.procs[j].parent == cur && t.procs[j].state == Zombie;
    }
  }

  lemma AdoptZombie(t: Table, t2: Table, t': Table, cur: int, i: nat)
    requires Shape(t) && i < NPROC && cur != t.initproc && t.procs[i].parent == cur && t.procs[i].state == Zombie
    requires var t1 := Put(t, i, t.procs[i].(parent := t.initproc));
      && Shape(t2) && t2 == t1.(procs := t2.procs, queues := t2.queues)
      && (forall j :: 0 <= j < NPROC ==> t2.procs[j] == Woken(t1.procs[j], OnProc(t.initproc), t.ticks))
    requires Reparented(t2, t', cur, i + 1)
    ensures Reparented(t, t', cur, i)
  {
    hide QueueInv;
    assert ZombieFrom(t, cur, i);
    hide ZombieFrom;
    forall j | 0 <= j < NPROC
      ensures Adopted(t.procs[j], t'.procs[j], cur, t.initproc, i <= j, true, t.ticks)
    {
      assert Adopted(t2.procs[j], t'.procs[j], cur, t.initproc, i + 1 <= j, ZombieFrom(t2, cur, i + 1), t.ticks);
    }
  }

  lemma WakeupExact(t: Table, chan: Chan)
    requires QueueInv(t)
    ensures var t' := Wakeup(t, chan);
      && QueueInv(t')
      && t' == t.(procs := t'.procs, queues := t'.queues)
      && (forall j :: 0 <= j < NPROC ==> t'.procs[j] == Woken(t.procs[j], chan, t.ticks))
  {
    WakeFromExact(t, chan, 0);
  }

  lemma RemoveRunningIsNoop(t: Table, cur: int)
    requires QueueInv(t) && IsRunning(t, cur)
    ensures RemoveFromQueue(t, cur) == t
  {
  }

  /** The entry of somebody else after exit: a child of init now if it was cur's, and awake exactly if
      it waits for cur's parent to be woken, or for init and cur leaves a zombie child. */
  function AfterExit(a: Entry, cur: int, parent: int, init: int, zombie: bool, now: int): Entry {
    var a' := a.(parent := if a.parent == cur then init else a.parent);
    if SleepsOn(a, ParentChan(parent)) || (zombie && SleepsOn(a, OnProc(init)))
    then a'.(state := Runnable, entryTime := now) else a'
  }

  /** b is a after somebody else's exit: possibly a child of init now, possibly awake now. */
  predicate Survived(a: Entry, b: Entry, cur: int, init: int) {
    var a' := a.(parent := if a.parent == cur then init else a.parent);
    b == a' || (a.state == Sleeping && b == a'.(state := Runnable, entryTime := b.entryTime))
  }

  lemma ExitExact(t: Table, cur: int)
    requires QueueInv(t) && IsRunning(t, cur) && cur != t.initproc
    ensures var t' := Exit(t, cur); var parent := t.procs[cur].parent;
      && QueueInv(t')
      && t' == t.(procs := t'.procs, queues := t'.queues)
      && (forall j :: 0 <= j < NPROC && j != cur ==>
            t'.procs[j] == AfterExit(t.procs[j], cur, parent, t.initproc, ZombieFrom(t, cur, 0), t.ticks))
      && t'.procs[cur] == t.procs[cur].(state := Zombie, parent := if parent == cur then t.initproc else parent)
  {
    hide QueueInv;
    hide Queues;
    hide Wakeup;
    hide Reparent;
    RemoveRunningIsNoop(t, cur);
    var parent := t.procs[cur].parent;
    var t1 := Wakeup(t, ParentChan(parent));
    WakeupExact(t, ParentChan(parent));
    var t2 := Reparent(t1, cur, 0);
    ReparentExact(t1, cur, 0);
    assert t2.procs[cur].state == Running;
    PutKeepsInv(t2, cur, t2.procs[cur].(state := Zombie));
    SleepersAreNoZombies(t, t1, cur, ParentChan(parent));
    hide ZombieFrom;
    forall j | 0 <= j < NPROC && j != cur
      ensures t2.procs[j] == AfterExit(t.procs[j], cur, parent, t.initproc, ZombieFrom(t, cur, 0), t.ticks)
    {
      assert Adopted(t1.procs[j], t2.procs[j], cur, t.initproc, true, ZombieFrom(t, cur, 0), t.ticks);
    }
  }

  lemma SleepersAreNoZombies(t: Table, t1: Table, cur: int, chan: Chan)
    requires Shape(t) && Shape(t1) && forall j :: 0 <= j < NPROC ==> t1.procs[j] == Woken(t.procs[j], chan, t.ticks)
    ensures ZombieFrom(t1, cur, 0) <==> ZombieFrom(t, cur, 0)
  {
    if ZombieFrom(t, cur, 0) {
      var j :| 0 <= j < NPROC && t.procs[j].parent == cur && t.procs[j].state == Zombie;
      assert t1.procs[j].parent == cur && t1.procs[j].state == Zombie;
    }
    if ZombieFrom(t1, cur, 0) {
      var j :| 0 <= j < NPROC && t1.procs[j].parent == cur && t1.procs[j].state == Zombie;
      assert t.procs[j].parent == cur && t.procs[j].state == Zombie;
    }
  }

  /** Nobody who should see a zombie stays asleep. */
  lemma ExitWakes(t: Table, cur: int)
    requires QueueInv(t) && IsRunning(t, cur) && cur != t.initproc
    ensures var t' := Exit(t, cur); var parent := t.procs[cur].parent;
      && (forall j :: 0 <= j < NPROC && j != cur ==> Survived(t.procs[j], t'.procs[j], cur, t.initproc))
      && (Slot(parent) ==> !SleepsOn(t'.procs[parent], OnProc(parent)))
      && ((exists j :: 0 <= j < NPROC && t.procs[j].parent == cur && t.procs[j].state == Zombie) ==>
            !SleepsOn(t'.procs[t.initproc], OnProc(t.initproc)))
  {
    hide QueueInv, Exit;
    ExitExact(t, cur);
  }

  lemma ExitKeepsParents(t: Table, cur: int)
    requires QueueInv(t) && Parents(t) && IsRunning(t, cur) && cur != t.initproc
    ensures Parents(Exit(t, cur))
  {
    hide QueueInv;
    hide Queues;
    hide Exit;
    ExitExact(t, cur);
    ExitWakes(t, cur);
    hide AfterExit;
    var t' := Exit(t, cur);
    assert HasLiveParent(t, cur);
    forall i | 0 <= i < NPROC && Started(t'.procs[i]) && i != t'.initproc
      ensures HasLiveParent(t', i) && (t'.procs[i].state == Zombie ==> !InWait(t', t'.procs[i].parent))
    {
      assert HasLiveParent(t, i);
      if i != cur {
        assert Survived(t.procs[i], t'.procs[i], cur, t.initproc);
        if t.procs[i].parent != cur { assert Survived(t.procs[t.procs[i].parent], t'.procs[t.procs[i].parent], cur, t.initproc); }
      }
    }
  }

  lemma ExitKeepsPids(t: Table, cur: int)
    requires QueueInv(t) && Pids(t) && IsRunning(t, cur) && cur != t.initproc
    ensures Pids(Exit(t, cur))
  {
    hide QueueInv;
    hide Queues;
    hide Exit;
    ExitExact(t, cur);
    ExitWakes(t, cur);
    hide AfterExit;
    var t' := Exit(t, cur);
    forall i | 0 <= i < NPROC
      ensures t'.procs[i].pid == t.procs[i].pid && (Used(t'.procs[i]) <==> Used(t.procs[i]))
    {
      assert i != cur ==> Survived(t.procs[i], t'.procs[i], cur, t.initproc);
    }
  }

  // ----- steps that only move live processes around or change their counters

  lemma CountersKeepQueueInv(t: Table, ticks: int, pid: int)
    requires QueueInv(t)
    ensures QueueInv(t.(ticks := ticks, nextpid := pid))
  {
    var t' := t.(ticks := ticks, nextpid := pid);
    assert forall l :: 0 <= l < NLEVEL ==> WellFormedQueue(t, l) ==> WellFormedQueue(t', l);
    assert forall i :: 0 <= i < NPROC ==> (Queued(t', i) <==> Queued(t, i));
  }

  lemma TickExact(t: Table)
    requires QueueInv(t)
    ensures var t' := Tick(t);
      && QueueInv(t')
      && t' == t.(procs := t'.procs, queues := t'.queues, ticks := (t.ticks + 1) % UINT)
      && (forall j :: 0 <= j < NPROC ==> t'.procs[j] == Woken(t.procs[j], OnTicks, t'.ticks))
  {
    hide QueueInv;
    hide Queues;
    hide Wakeup;
    CountersKeepQueueInv(t, (t.ticks + 1) % UINT, t.nextpid);
    WakeupExact(t.(ticks := (t.ticks + 1) % UINT), OnTicks);
  }

  /** kill marks the first process with the pid, wakes it if it sleeps, and changes nothing else. */
  lemma KillExact(t: Table, pid: int)
    requires QueueInv(t)
    ensures var t' := Kill(t, pid); var i := FindPid(t.procs, pid, 0);
      && QueueInv(t')
      && if i == NPROC then t' == t else
           var e := t.procs[i].(killed := true);
           && t' == t.(procs := t'.procs, queues := t'.queues)
           && t'.procs == t.procs[i := if e.state == Sleeping then e.(state := Runnable, entryTime := t.ticks) else e]
  {
    hide QueueInv;
    hide Queues;
    hide AddToQueue;
    hide FindPid;
    var i := FindPid(t.procs, pid, 0);
    if i < NPROC {
      var e := t.procs[i].(killed := true);
      if e.state == Sleeping {
        EnqueueKeepsInv(t, i, e.(state := Runnable));
        assert Kill(t, pid) == Enqueue(t, i, e.(state := Runnable));
      } else {
        PutSameKeepsInv(t, i, e);
        assert Kill(t, pid) == Put(t, i, e);
      }
    }
  }

  lemma PutSameKeepsInv(t: Table, i: int, e: Entry)
    requires QueueInv(t) && Slot(i)
    requires e.level == t.procs[i].level && e.io == t.procs[i].io && e.entryTime == t.procs[i].entryTime
    requires e.state == t.procs[i].state
    ensures QueueInv(Put(t, i, e))
  {
  }

  lemma YieldKeepsInv(t: Table, cur: int)
    requires QueueInv(t) && IsRunning(t, cur)
    ensures QueueInv(Yield(t, cur)) && SameFamily(t, Yield(t, cur))
  {
    hide QueueInv;
    hide Queues;
    hide AddToQueue;
    EnqueueKeepsInv(t, cur, t.procs[cur].(state := Runnable));
  }

  lemma RunningPutKeepsInv(t: Table, cur: int, e: Entry)
    requires QueueInv(t) && IsRunning(t, cur) && 0 <= e.level < NLEVEL
    requires e.pid == t.procs[cur].pid && e.parent == t.procs[cur].parent && e.kstack == t.procs[cur].kstack
    requires e.state == Running || (e.state == Sleeping && !e.chan.OnProc?)
    ensures QueueInv(Put(t, cur, e)) && SameFamily(t, Put(t, cur, e))
  {
    hide QueueInv;
    hide Queues;
    PutKeepsInv(t, cur, e);
  }

  /** set_proc_info does not test the level it is given; the table survives exactly the four that
      have a queue. */
  lemma SetInfoKeepsInvIff(t: Table, cur: int, level: int, burst: int, wait: int, io: int, endTime: int)
    requires Inv(t) && IsRunning(t, cur)
    ensures Inv(SetProcInfo(t, cur, level, burst, wait, io, endTime)) <==> 0 <= level < NLEVEL
  {
    var t' := SetProcInfo(t, cur, level, burst, wait, io, endTime);
    if 0 <= level < NLEVEL {
      RunningPutKeepsInv(t, cur, t'.procs[cur]);
      SameFamilyKeeps(t, t');
    } else {
      assert t'.procs[cur].level == level;
    }
    hide QueueInv, Pids, Parents, SameFamily;
  }

  lemma TickKeepsFamily(t: Table)
    requires QueueInv(t)
    ensures QueueInv(Tick(t)) && SameFamily(t, Tick(t))
  {
    hide QueueInv;
    hide Queues;
    hide Tick;
    TickExact(t);
  }

  lemma WakeupKeepsFamily(t: Table, chan: Chan)
    requires QueueInv(t)
    ensures QueueInv(Wakeup(t, chan)) && SameFamily(t, Wakeup(t, chan))
  {
    hide QueueInv;
    hide Queues;
    hide Wakeup;
    WakeupExact(t, chan);
  }

  lemma TimerKeepsFamily(t: Table, cur: int)
    requires QueueInv(t) && IsRunning(t, cur)
    ensures QueueInv(TimerSection(t, cur)) && SameFamily(t, TimerSection(t, cur))
  {
    hide QueueInv;
    hide Queues;
    hide TimerSection;
    TimerSectionExact(t, cur);
  }

  lemma DispatchKeepsFamily(t: Table)
    requires QueueInv(t)
    ensures QueueInv(Dispatch(t)) && SameFamily(t, Dispatch(t))
  {
    hide QueueInv;
    hide Queues;
    hide Dispatch;
    hide NextProc;
    DispatchExact(t);
  }

  lemma KillKeepsFamily(t: Table, pid: int)
    requires QueueInv(t)
    ensures QueueInv(Kill(t, pid)) && SameFamily(t, Kill(t, pid))
  {
    hide QueueInv;
    hide Queues;
    hide Kill;
    hide FindPid;
    KillExact(t, pid);
    var t', i := Kill(t, pid), FindPid(t.procs, pid, 0);
    assert forall j :: 0 <= j < NPROC && j != i ==> t'.procs[j] == t.procs[j];
  }

  lemma SchedulingKeepsInv(t: Table, e: Event)
    requires Inv(t) && Enabled(t, e)
    requires !(e.Allocs? || e.ForkFails? || e.Forks? || e.Exits? || e.Waits?)
    ensures Inv(Step(t, e))
  {
    hide QueueInv;
    hide Queues;
    hide SameFamily;
    hide Pids;
    hide Parents;
    match e {
      case Yields(cur) => YieldKeepsInv(t, cur);
      case Sleeps(cur, chan) => RunningPutKeepsInv(t, cur, t.procs[cur].(state := Sleeping, chan := chan));
      case Faults(cur) => RunningPutKeepsInv(t, cur, t.procs[cur].(killed := true));
      case SetsInfo(cur, level, burst, wait, io, endTime) =>
        RunningPutKeepsInv(t, cur, t.procs[cur].(level := level, burst := burst, wait := wait, io := io, endTime := endTime));
      case Ticks => TickKeepsFamily(t);
      case Timer(cur) => TimerKeepsFamily(t, cur);
      case Dispatches => DispatchKeepsFamily(t);
      case Wakes(chan) => WakeupKeepsFamily(t, chan);
      case Kills(pid) => KillKeepsFamily(t, pid);
    }
    SameFamilyKeeps(t, Step(t, e));
  }

  // ----- creation and reaping

  lemma AllocKeepsInv(t: Table)
    requires Inv(t)
    ensures Inv(AllocProc(t))
  {
    hide QueueInv;
    hide Queues;
    hide FindUnused;
    var i := FindUnused(t.procs, 0);
    if i < NPROC {
      var t' := AllocProc(t);
      PutKeepsInv(t, i, t'.procs[i]);
      CountersKeepQueueInv(Put(t, i, t'.procs[i]), t.ticks, t.nextpid + 1);
      EntryKeepsParents(t, t', i);
    }
  }

  /** One slot changes, and it is the parent of nobody. */
  lemma EntryKeepsParents(t: Table, t': Table, i: int)
    requires Shape(t) && Parents(t) && Shape(t') && Slot(i) && i != t.initproc
    requires t'.procs == t.procs[i := t'.procs[i]] && t'.initproc == t.initproc
    requires !Live(t.procs[i])
    requires Started(t'.procs[i]) ==> t'.procs[i].kstack && HasLiveParent(t', i) && t'.procs[i].state != Zombie
    requires !Started(t'.procs[i]) ==> t'.procs[i].parent == NOSLOT
    ensures Parents(t')
  {
    forall j | 0 <= j < NPROC && Started(t'.procs[j]) && j != t'.initproc
      ensures HasLiveParent(t', j) && (t'.procs[j].state == Zombie ==> !InWait(t', t'.procs[j].parent))
    {
      assert j != i ==> HasLiveParent(t, j);
    }
  }

  lemma ForkKeepsInv(t: Table, cur: int, np: int)
    requires Inv(t) && IsRunning(t, cur) && IsEmbryo(t, np)
    ensures Inv(ForkOk(t, cur, np))
  {
    hide QueueInv;
    hide Queues;
    hide AddToQueue;
    var t' := ForkOk(t, cur, np);
    EnqueueKeepsInv(t, np, ForkedEntry(t.procs[cur], cur, t.procs[np]));
    EntryKeepsParents(t, t', np);
  }

  lemma ForkFailKeepsInv(t: Table, np: int)
    requires Inv(t) && IsEmbryo(t, np)
    ensures Inv(ForkFail(t, np))
  {
    hide QueueInv;
    hide Queues;
    PutKeepsInv(t, np, t.procs[np].(state := Unused, kstack := false));
    EntryKeepsParents(t, ForkFail(t, np), np);
  }

  lemma WaitKeepsInv(t: Table, cur: int)
    requires Inv(t) && IsRunning(t, cur)
    ensures Inv(Wait(t, cur))
  {
    hide QueueInv;
    hide Queues;
    var t' := Wait(t, cur);
    var z := FindZombieChild(t.procs, cur, 0);
    if z < NPROC {
      PutKeepsInv(t, z, t'.procs[z]);
      EntryKeepsParents(t, t', z);
    } else if WaitOutcome(t, cur).Slept? {
      PutKeepsInv(t, cur, t'.procs[cur]);
      WaitSleepKeepsParents(t, cur);
    }
  }

  lemma WaitSleepKeepsParents(t: Table, cur: int)
    requires Shape(t) && Parents(t) && IsRunning(t, cur)
    requires FindZombieChild(t.procs, cur, 0) == NPROC
    ensures Parents(Sleep(t, cur, OnProc(cur)))
  {
    var t' := Sleep(t, cur, OnProc(cur));
    forall i | 0 <= i < NPROC && Started(t'.procs[i]) && i != t'.initproc
      ensures HasLiveParent(t', i) && (t'.procs[i].state == Zombie ==> !InWait(t', t'.procs[i].parent))
    {
      assert HasLiveParent(t, i);
    }
  }

  lemma StepKeepsInv(t: Table, e: Event)
    requires Inv(t) && Enabled(t, e)
    ensures Inv(Step(t, e))
  {
    hide Inv;
    match e {
      case Allocs => AllocKeepsInv(t);
      case ForkFails(np) => ForkFailKeepsInv(t, np);
      case Forks(cur, np) => ForkKeepsInv(t, cur, np);
      case Exits(cur) => ExitKeepsInv(t, cur);
      case Waits(cur) => WaitKeepsInv(t, cur);
      case _ => SchedulingKeepsInv(t, e);
    }
  }

  lemma ExitKeepsInv(t: Table, cur: int)
    requires Inv(t) && IsRunning(t, cur) && cur != t.initproc
    ensures Inv(Exit(t, cur))
  {
    ExitExact(t, cur);
    ExitKeepsPids(t, cur);
    ExitKeepsParents(t, cur);
  }
}
