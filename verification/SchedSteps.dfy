/** The critical sections of proc.c and of the timer branch of trap.c, as functions on tables,
    and what each one changes. */
module SchedSteps {
  import opened SchedTable

  // ----- moves between states

  /** Store e in slot i and queue it at its own level. */
  function Enqueue(t: Table, i: int, e: Entry): (r: Table)
    requires Shape(t) && Slot(i) && 0 <= e.level < NLEVEL
    ensures Shape(r)
  {
    AddToQueue(Put(t, i, e), i, e.level)
  }

  function MakeRunnable(t: Table, i: int): (r: Table)
    requires Shape(t) && Slot(i)
    ensures Shape(r)
  {
    Enqueue(t, i, t.procs[i].(state := Runnable))
  }

  lemma PutKeepsQueues(t: Table, i: int, e: Entry)
    requires Queues(t) && Slot(i) && 0 <= e.level < NLEVEL
    requires Queued(t, i) ==> e.level == t.procs[i].level && e.io == t.procs[i].io && e.entryTime == t.procs[i].entryTime
    ensures Queues(Put(t, i, e))
    ensures forall j :: 0 <= j < NPROC ==> (Queued(Put(t, i, e), j) <==> Queued(t, j))
  {
  }

  lemma PutKeepsInv(t: Table, i: int, e: Entry)
    requires QueueInv(t) && Slot(i) && 0 <= e.level < NLEVEL
    requires t.procs[i].state != Runnable && e.state != Runnable
    ensures QueueInv(Put(t, i, e))
  {
  }

  lemma EnqueueKeepsInv(t: Table, i: int, e: Entry)
    requires QueueInv(t) && Slot(i) && 0 <= e.level < NLEVEL
    requires t.procs[i].state != Runnable && e.state == Runnable
    ensures var t' := Enqueue(t, i, e);
      && QueueInv(t')
      && t' == t.(procs := t.procs[i := e.(entryTime := t.ticks)], queues := t'.queues)
  {
    PutKeepsQueues(t, i, e);
    AddToQueueKeepsQueues(Put(t, i, e), i, e.level);
  }

  // ----- wakeup1, kill

  predicate SleepsOn(e: Entry, chan: Chan) {
    e.state == Sleeping && e.chan == chan
  }

  function WakeFrom(t: Table, chan: Chan, i: nat): (r: Table)
    requires Shape(t) && i <= NPROC
    ensures Shape(r)
    decreases |t.procs| - i
  {
    if i == NPROC then t
    else WakeFrom(if SleepsOn(t.procs[i], chan) then MakeRunnable(t, i) else t, chan, i + 1)
  }

  function Wakeup(t: Table, chan: Chan): (r: Table)
    requires Shape(t)
    ensures Shape(r)
  {
    WakeFrom(t, chan, 0)
  }

  function Woken(e: Entry, chan: Chan, now: int): Entry {
    if SleepsOn(e, chan) then e.(state := Runnable, entryTime := now) else e
  }

  /** wakeup1 makes RUNNABLE exactly the processes sleeping on chan, puts each on its queue, and
      touches no other entry. */
  lemma {:induction false} WakeFromExact(t: Table, chan: Chan, i: nat)
    requires QueueInv(t) && i <= NPROC
    ensures var t' := WakeFrom(t, chan, i);
      && QueueInv(t')
      && t' == t.(procs := t'.procs, queues := t'.queues)
      && forall j :: 0 <= j < NPROC ==> t'.procs[j] == if j < i then t.procs[j] else Woken(t.procs[j], chan, t.ticks)
    decreases NPROC - i
  {
    hide QueueInv;
    hide Queues;
    hide AddToQueue;
    if i < NPROC {
      if SleepsOn(t.procs[i], chan) {
        EnqueueKeepsInv(t, i, t.procs[i].(state := Runnable));
        WakeFromExact(MakeRunnable(t, i), chan, i + 1);
      } else {
        WakeFromExact(t, chan, i + 1);
      }
    }
  }

  /** The first slot with this pid, or NPROC. */
  function FindPid(procs: seq<Entry>, pid: int, i: nat): (r: nat)
    requires |procs| == NPROC && i <= NPROC
    ensures i <= r <= NPROC
    ensures r < NPROC ==> procs[r].pid == pid
    ensures forall j :: i <= j < r ==> procs[j].pid != pid
    decreases |procs| - i
  {
    if i == NPROC || procs[i].pid == pid then i else FindPid(procs, pid, i + 1)
  }

  function Kill(t: Table, pid: int): (r: Table)
    requires Shape(t)
    ensures Shape(r)
  {
    var i := FindPid(t.procs, pid, 0);
    if i == NPROC then t
    else
      var e := t.procs[i].(killed := true);
      if e.state == Sleeping then Enqueue(t, i, e.(state := Runnable)) else Put(t, i, e)
  }

  // ----- timers, quantum, aging

  function Timed(e: Entry): Entry {
    if e.pid == 0 then e
    else if e.state == Running then e.(burst := e.burst + 1, total := e.total + 1)
    else if e.state == Runnable then e.(wait := e.wait + 1)
    else if e.state == Sleeping then e.(io := e.io + 1)
    else e
  }

  function UpdateTimers(t: Table): (r: Table)
    requires Shape(t)
    ensures Shape(r)
    ensures r == t.(procs := r.procs)
    ensures forall i :: 0 <= i < NPROC ==> r.procs[i] == Timed(t.procs[i])
  {
    t.(procs := seq(NPROC, i requires 0 <= i < NPROC => Timed(t.procs[i])))
  }

  function Demoted(e: Entry): Entry
  {
    if !Ordinary(e) then e
    else if e.level == 3 then e.(burst := 0)
    else e.(level := e.level + 1, burst := 0, wait := 0, io := 0)
  }

  function CheckedQuantum(e: Entry): Entry {
    if e.burst >= TimeQuantum(e.level) then Demoted(e) else e
  }

  /** What the timer handler does to the interrupted process: the end_time test, else the
      quantum test. */
  function Charged(e: Entry): Entry {
    if e.endTime > 0 && e.total >= e.endTime then e.(killed := true)
    else if !e.killed then CheckedQuantum(e)
    else e
  }

  function Promote(t: Table, p: int): (r: Table)
    requires Shape(t) && Slot(p)
    ensures Shape(r)
  {
    var e := t.procs[p];
    if !Ordinary(e) || e.level == 0 then t
    else Enqueue(RemoveFromQueue(t, p), p, e.(level := e.level - 1, wait := 0, burst := 0))
  }

  function AgeList(t: Table, ids: seq<int>): (r: Table)
    requires Shape(t) && Slots(ids)
    ensures Shape(r)
    decreases |ids|
  {
    if ids == [] then t
    else AgeList(if t.procs[ids[0]].wait >= AGING then Promote(t, ids[0]) else t, ids[1..])
  }

  function AgeLevels(t: Table, l: nat): (r: Table)
    requires Shape(t) && 1 <= l <= NLEVEL
    ensures Shape(r)
    decreases |t.queues| - l
  {
    if l == NLEVEL then t else AgeLevels(AgeList(t, t.queues[l]), l + 1)
  }

  function CheckAging(t: Table): (r: Table)
    requires Shape(t)
    ensures Shape(r)
  {
    AgeLevels(t, 1)
  }

  predicate Due(e: Entry) {
    e.state == Runnable && Ordinary(e) && e.level >= 1 && e.wait >= AGING
  }

  function Aged(e: Entry, now: int): Entry {
    if Due(e) then e.(level := e.level - 1, wait := 0, burst := 0, entryTime := now) else e
  }

  lemma PromoteKeepsInv(t: Table, p: int)
    requires QueueInv(t) && Slot(p) && t.procs[p].state == Runnable && t.procs[p].wait >= AGING
    ensures var t' := Promote(t, p);
      && QueueInv(t')
      && t' == t.(procs := t.procs[p := Aged(t.procs[p], t.ticks)], queues := t'.queues)
      && (forall l :: 0 <= l < NLEVEL && l != t.procs[p].level && l != t.procs[p].level - 1 ==> t'.queues[l] == t.queues[l])
  {
    hide Queues;
    hide InsertAt;
    hide InsertPos;
    hide Queued;
    hide IndexOf;
    hide RemoveAt;
    var e := t.procs[p];
    if Ordinary(e) && e.level != 0 {
      var t1 := RemoveFromQueue(t, p);
      RemoveFromQueueKeepsQueues(t, p);
      var e' := e.(level := e.level - 1, wait := 0, burst := 0);
      PutKeepsQueues(t1, p, e');
      AddToQueueKeepsQueues(Put(t1, p, e'), p, e'.level);
    } else {
      assert t.procs[p := Aged(e, t.ticks)] == t.procs;
    }
  }

  lemma {:induction false} AgeListExact(t: Table, ids: seq<int>, l: int)
    requires QueueInv(t) && Slots(ids) && Distinct(ids) && 1 <= l < NLEVEL
    requires forall i :: i in ids ==> t.procs[i].state == Runnable && t.procs[i].level == l
    ensures var t' := AgeList(t, ids);
      && QueueInv(t')
      && t' == t.(procs := t'.procs, queues := t'.queues)
      && (forall i :: 0 <= i < NPROC ==> t'.procs[i] == if i in ids then Aged(t.procs[i], t.ticks) else t.procs[i])
      && (forall m :: l < m < NLEVEL ==> t'.queues[m] == t.queues[m])
    decreases |ids|
  {
    hide Queues;
    hide QueueInv;
    hide Promote;
    if ids != [] {
      var p := ids[0];
      var t1 := if t.procs[p].wait >= AGING then Promote(t, p) else t;
      if t.procs[p].wait >= AGING { PromoteKeepsInv(t, p); }
      AgeListExact(t1, ids[1..], l);
    }
  }

  lemma {:induction false} AgeLevelsExact(t: Table, l: nat)
    requires QueueInv(t) && 1 <= l <= NLEVEL
    ensures var t' := AgeLevels(t, l);
      && QueueInv(t')
      && t' == t.(procs := t'.procs, queues := t'.queues)
      && (forall i :: 0 <= i < NPROC ==> t'.procs[i] == if t.procs[i].level >= l then Aged(t.procs[i], t.ticks) else t.procs[i])
    decreases NLEVEL - l
  {
    hide QueueInv, Queues, AgeList, Aged;
    if l < NLEVEL {
      QueueIsLevel(t, l);
      var t1 := AgeList(t, t.queues[l]);
      AgeListExact(t, t.queues[l], l);
      AgeLevelsExact(t1, l + 1);
      forall i | 0 <= i < NPROC
        ensures AgeLevels(t, l).procs[i] == if t.procs[i].level >= l then Aged(t.procs[i], t.ticks) else t.procs[i]
      {
        AgedOnce(t.procs[i], t.ticks, l, i in t.queues[l]);
      }
    }
  }

  lemma QueueIsLevel(t: Table, l: int)
    requires QueueInv(t) && 0 <= l < NLEVEL
    ensures Slots(t.queues[l]) && Distinct(t.queues[l])
    ensures forall i :: 0 <= i < NPROC ==> (i in t.queues[l] <==> t.procs[i].state == Runnable && t.procs[i].level == l)
    ensures forall i :: i in t.queues[l] ==> 0 <= i < NPROC
  {
    assert WellFormedQueue(t, l);
    forall i | 0 <= i < NPROC ensures i in t.queues[l] <==> t.procs[i].state == Runnable && t.procs[i].level == l {
      assert t.procs[i].level == l && t.procs[i].state == Runnable ==> Queued(t, i);
    }
  }

  /** Aged at its own level, a process is not aged again at a higher one. */
  lemma AgedOnce(e: Entry, now: int, l: int, queued: bool)
    requires queued <==> e.state == Runnable && e.level == l
    ensures var e1 := if queued then Aged(e, now) else e;
      (if e1.level >= l + 1 then Aged(e1, now) else e1) == if e.level >= l then Aged(e, now) else e
  {
  }

  /** One aging pass promotes exactly the ordinary processes queued at levels 1..3 that have
      waited 250 ticks, each by one level, and changes nothing else; no process leaves the
      queues or enters them, and none that is due is left. */
  lemma CheckAgingExact(t: Table)
    requires QueueInv(t)
    ensures var t' := CheckAging(t);
      && QueueInv(t')
      && t' == t.(procs := t'.procs, queues := t'.queues)
      && (forall i :: 0 <= i < NPROC ==> t'.procs[i] == Aged(t.procs[i], t.ticks))
      && (forall i :: 0 <= i < NPROC ==> !Due(t'.procs[i]))
      && (forall i :: 0 <= i < NPROC ==> (Queued(t', i) <==> Queued(t, i)))
  {
    AgeLevelsExact(t, 1);
  }

  lemma UpdateTimersKeepsInv(t: Table)
    requires QueueInv(t)
    ensures QueueInv(UpdateTimers(t))
  {
  }

  /** The locked part of the timer interrupt taken while cur is running. */
  function TimerSection(t: Table, cur: int): (r: Table)
    requires Shape(t) && Slot(cur)
    ensures Shape(r)
  {
    var t1 := UpdateTimers(t);
    CheckAging(Put(t1, cur, Charged(t1.procs[cur])))
  }

  /** The timer step, entry by entry. */
  function AfterTimer(e: Entry, interrupted: bool, now: int): Entry {
    Aged(if interrupted then Charged(Timed(e)) else Timed(e), now)
  }

  lemma TimerSectionExact(t: Table, cur: int)
    requires QueueInv(t) && Slot(cur) && t.procs[cur].state == Running
    ensures var t' := TimerSection(t, cur);
      && QueueInv(t')
      && t' == t.(procs := t'.procs, queues := t'.queues)
      && (forall i :: 0 <= i < NPROC ==> t'.procs[i] == AfterTimer(t.procs[i], i == cur, t.ticks))
  {
    var t1 := UpdateTimers(t);
    UpdateTimersKeepsInv(t);
    PutKeepsInv(t1, cur, Charged(t1.procs[cur]));
    CheckAgingExact(Put(t1, cur, Charged(t1.procs[cur])));
  }

  /** The unlocked part on CPU 0: count the tick and wake its sleepers. */
  function Tick(t: Table): (r: Table)
    requires Shape(t)
    ensures Shape(r)
  {
    Wakeup(t.(ticks := (t.ticks + 1) % UINT), OnTicks)
  }

  // ----- the scheduler loop, yield, sleep, set_proc_info

  /** get_next_proc: the head of the first nonempty queue, or NOSLOT. */
  function NextProc(t: Table): int
    requires Shape(t)
  {
    if t.queues[0] != [] then t.queues[0][0]
    else if t.queues[1] != [] then t.queues[1][0]
    else if t.queues[2] != [] then t.queues[2][0]
    else if t.queues[3] != [] then t.queues[3][0]
    else NOSLOT
  }

  /** One round of the scheduler loop; the process that resumes clears its channel. */
  function Dispatch(t: Table): (r: Table)
    requires Shape(t)
    ensures Shape(r)
  {
    var p := NextProc(t);
    if p != NOSLOT && t.procs[p].state == Runnable && t.procs[p].kstack then
      RemoveFromQueue(Put(t, p, t.procs[p].(state := Running, chan := NoChan)), p)
    else t
  }

  lemma DispatchExact(t: Table)
    requires QueueInv(t)
    ensures var t' := Dispatch(t); var p := NextProc(t);
      && QueueInv(t')
      && (p != NOSLOT ==> Slot(p) && t.procs[p].state == Runnable)
      && t'.procs == (if p != NOSLOT && t.procs[p].kstack
                      then t.procs[p := t.procs[p].(state := Running, chan := NoChan)] else t.procs)
      && t' == t.(procs := t'.procs, queues := t'.queues)
  {
    var p := NextProc(t);
    if p != NOSLOT {
      assert exists l :: 0 <= l < NLEVEL && t.queues[l] != [] && t.queues[l][0] == p;
      var l :| 0 <= l < NLEVEL && t.queues[l] != [] && t.queues[l][0] == p;
      assert WellFormedQueue(t, l);
      assert Queued(t, p);
      if t.procs[p].kstack {
        PutKeepsQueues(t, p, t.procs[p].(state := Running, chan := NoChan));
        RemoveFromQueueKeepsQueues(Put(t, p, t.procs[p].(state := Running, chan := NoChan)), p);
      }
    }
  }

  function Yield(t: Table, cur: int): (r: Table)
    requires Shape(t) && Slot(cur)
    ensures Shape(r)
  {
    MakeRunnable(t, cur)
  }

  function Sleep(t: Table, cur: int, chan: Chan): (r: Table)
    requires Shape(t) && Slot(cur)
    ensures Shape(r)
  {
    Put(t, cur, t.procs[cur].(state := Sleeping, chan := chan))
  }

  function SetProcInfo(t: Table, cur: int, level: int, burst: int, wait: int, io: int, endTime: int): (r: Table)
    requires Shape(t) && Slot(cur)
    ensures 0 <= level < NLEVEL ==> Shape(r)
  {
    t.(procs := t.procs[cur := t.procs[cur].(level := level, burst := burst, wait := wait, io := io, endTime := endTime)])
  }

  // ----- allocproc, fork, exit, wait

  function FindUnused(procs: seq<Entry>, i: nat): (r: nat)
    requires |procs| == NPROC && i <= NPROC
    ensures i <= r <= NPROC
    ensures r < NPROC ==> procs[r].state == Unused
    ensures forall j :: i <= j < r ==> procs[j].state != Unused
    decreases |procs| - i
  {
    if i == NPROC || procs[i].state == Unused then i else FindUnused(procs, i + 1)
  }

  /** The locked part of allocproc: claim the first UNUSED slot, if any. */
  function AllocProc(t: Table): (r: Table)
    requires Shape(t)
    ensures Shape(r)
  {
    var i := FindUnused(t.procs, 0);
    if i == NPROC then t
    else
      Put(t, i, t.procs[i].(state := Embryo, pid := t.nextpid, level := 0, burst := 0, wait := 0, io := 0,
                            endTime := -1, total := 0, entryTime := 0))
      .(nextpid := t.nextpid + 1)
  }

  /** fork gives up: no kernel stack or no memory for the copy. */
  function ForkFail(t: Table, np: int): (r: Table)
    requires Shape(t) && Slot(np)
    ensures Shape(r)
  {
    Put(t, np, t.procs[np].(state := Unused, kstack := false))
  }

  function ForkedEntry(parent: Entry, cur: int, e: Entry): Entry {
    e.(state := Runnable, kstack := true, parent := cur,
       level := if parent.pid == 1 then 3 else 0,
       kind := if parent.pid == 1 then Shell else e.kind,
       burst := 0, wait := 0, io := 0, entryTime := 0, endTime := -1, total := 0)
  }

  /** fork succeeds for the slot np that allocproc claimed. */
  function ForkOk(t: Table, cur: int, np: int): (r: Table)
    requires Shape(t) && Slot(cur) && Slot(np)
    ensures Shape(r)
  {
    Enqueue(t, np, ForkedEntry(t.procs[cur], cur, t.procs[np]))
  }

  function ParentChan(parent: int): Chan {
    if parent == NOSLOT then NoChan else OnProc(parent)
  }

  /** exit's loop that hands the children of cur to init. */
  function Reparent(t: Table, cur: int, i: nat): (r: Table)
    requires Shape(t) && i <= NPROC
    ensures Shape(r)
    decreases |t.procs| - i
  {
    if i == NPROC then t
    else if t.procs[i].parent != cur then Reparent(t, cur, i + 1)
    else
      var t1 := Put(t, i, t.procs[i].(parent := t.initproc));
      Reparent(if t.procs[i].state == Zombie then Wakeup(t1, OnProc(t.initproc)) else t1, cur, i + 1)
  }

  function Exit(t: Table, cur: int): (r: Table)
    requires Shape(t) && Slot(cur)
    ensures Shape(r)
  {
    var t1 := Wakeup(RemoveFromQueue(t, cur), ParentChan(t.procs[cur].parent));
    var t2 := Reparent(t1, cur, 0);
    Put(t2, cur, t2.procs[cur].(state := Zombie))
  }

  datatype WaitResult = Reaped(pid: int) | NoChildren | Slept

  function FindZombieChild(procs: seq<Entry>, cur: int, i: nat): (r: nat)
    requires |procs| == NPROC && i <= NPROC
    ensures i <= r <= NPROC
    ensures r < NPROC ==> procs[r].parent == cur && procs[r].state == Zombie
    ensures forall j :: i <= j < r ==> !(procs[j].parent == cur && procs[j].state == Zombie)
    decreases |procs| - i
  {
    if i == NPROC || (procs[i].parent == cur && procs[i].state == Zombie) then i
    else FindZombieChild(procs, cur, i + 1)
  }

  predicate HasChild(procs: seq<Entry>, cur: int) {
    exists i :: 0 <= i < |procs| && procs[i].parent == cur
  }

  /** One turn of wait's outer loop. */
  function WaitOutcome(t: Table, cur: int): WaitResult
    requires Shape(t) && Slot(cur)
  {
    var z := FindZombieChild(t.procs, cur, 0);
    if z < NPROC then Reaped(t.procs[z].pid)
    else if !HasChild(t.procs, cur) || t.procs[cur].killed then NoChildren
    else Slept
  }

  function Wait(t: Table, cur: int): (r: Table)
    requires Shape(t) && Slot(cur)
    ensures Shape(r)
  {
    var z := FindZombieChild(t.procs, cur, 0);
    if z < NPROC then Put(t, z, t.procs[z].(kstack := false, pid := 0, parent := NOSLOT, killed := false, state := Unused))
    else if WaitOutcome(t, cur).Slept? then Sleep(t, cur, OnProc(cur))
    else t
  }
}
