/** proc.c as it is written: the process table is an array updated in place, the four ready queues
    are doubly linked lists threaded through it, a pointer to a process is its slot number, and
    every routine changes the arrays by loops and assignments.  The ghost field `queues` holds
    what the lists run through.  Each method is proved to take the table to the one that the
    function of the same name in SchedTable or SchedSteps gives. */
module SchedHeap {
  import opened SchedTable
  import opened SchedLinks
  import opened SchedSteps
  import opened SchedRuns

  /** One timer step: each state has its own counters, and a slot without a pid none. */
  predicate Advanced(a: Entry, b: Entry) {
    && b.burst == (if a.pid != 0 && a.state == Running then a.burst + 1 else a.burst)
    && b.total == (if a.pid != 0 && a.state == Running then a.total + 1 else a.total)
    && b.wait == (if a.pid != 0 && a.state == Runnable then a.wait + 1 else a.wait)
    && b.io == (if a.pid != 0 && a.state == Sleeping then a.io + 1 else a.io)
    && b == a.(burst := b.burst, total := b.total, wait := b.wait, io := b.io)
  }

  class PTable {
    const proc: array<Entry>
    const next: array<int>
    const prev: array<int>
    const head: array<int>
    const tail: array<int>
    var ticks: int
    var nextpid: int
    var initproc: int
    ghost var queues: seq<seq<int>>

    ghost function View(): Table
      reads this, proc
    {
      Table(proc[..], queues, ticks, nextpid, initproc)
    }

    ghost function Pointers(): Links
      reads head, tail, next, prev
    {
      Links(head[..], tail[..], next[..], prev[..])
    }

    ghost predicate Layout() {
      && proc.Length == next.Length == prev.Length == NPROC
      && head.Length == tail.Length == NLEVEL
      && next != prev && head != tail && next != head && next != tail && prev != head && prev != tail
    }

    ghost predicate Valid()
      reads this, proc, next, prev, head, tail
    {
      Layout() && Queues(View()) && Represents(Pointers(), View())
    }

    constructor ()
      ensures Valid() && View() == Boot()
    {
      proc := new Entry[NPROC](i => FreeEntry());
      next := new int[NPROC](i => NOSLOT);
      prev := new int[NPROC](i => NOSLOT);
      head := new int[NLEVEL](i => NOSLOT);
      tail := new int[NLEVEL](i => NOSLOT);
      ticks, nextpid, initproc := 0, 2, 0;
      queues := [[], [], [], []];
      new;
      hide Queues;
      hide SchedTable.AddToQueue;
      hide Represents;
      proc[0] := InitEntry();
      NullLinksRepresent(Pointers());
      QueueingInitBoots();
      assert View() == BeforeBoot() by { assert proc[..] == Boot().procs; }
      AddToQueue(0, proc[0].level);
    }

    /** Put p in front of c. */
    method SpliceBefore(l: int, p: int, c: int)
      requires Layout() && 0 <= l < NLEVEL && Slot(p) && Slot(c) && (Slot(prev[c]) || prev[c] == NOSLOT)
      modifies next, prev, head
      ensures Pointers() == SchedLinks.SpliceBefore(old(Pointers()), l, p, c)
    {
      next[p] := c;
      var b := prev[c];
      prev[p] := b;
      if b != NOSLOT {
        next[b] := p;
      } else {
        head[l] := p;
      }
      prev[c] := p;
    }

    /** Put p at the end of list l. */
    method SpliceLast(l: int, p: int)
      requires Layout() && 0 <= l < NLEVEL && Slot(p) && (head[l] == NOSLOT || Slot(tail[l]))
      modifies next, prev, head, tail
      ensures Pointers() == SchedLinks.SpliceLast(old(Pointers()), l, p)
    {
      if head[l] == NOSLOT {
        head[l], tail[l] := p, p;
      } else {
        next[tail[l]] := p;
        prev[p] := tail[l];
        tail[l] := p;
      }
    }

    /** Take p out of list l. */
    method SpliceOut(l: int, p: int)
      requires Layout() && 0 <= l < NLEVEL && Slot(p)
      requires (Slot(prev[p]) || prev[p] == NOSLOT) && (Slot(next[p]) || next[p] == NOSLOT)
      modifies next, prev, head, tail
      ensures Pointers() == SchedLinks.SpliceOut(old(Pointers()), l, p)
    {
      var b, n := prev[p], next[p];
      if b != NOSLOT {
        next[b] := n;
      } else {
        head[l] := n;
      }
      if n != NOSLOT {
        prev[n] := b;
      } else {
        tail[l] := b;
      }
      next[p] := NOSLOT;
      prev[p] := NOSLOT;
    }

    /** Walk list l to the first process that p goes in front of, or to its end. */
    method FindPlace(l: int, p: int, ghost q: seq<int>) returns (curr: int)
      requires Layout() && 0 <= l < NLEVEL && Slot(p) && Slots(q) && Chain(Pointers(), l, q)
      ensures curr == At(q, InsertPos(proc[..], q, p, 0))
    {
      curr := head[l];
      ghost var i := 0;
      while curr != NOSLOT
        invariant 0 <= i <= |q| && curr == At(q, i)
        invariant forall j :: 0 <= j < i ==> !Higher(proc[p], proc[q[j]])
        decreases |q| - i
      {
        if proc[p].io > proc[curr].io || (proc[p].io == proc[curr].io && proc[p].entryTime > proc[curr].entryTime) {
          return;
        }
        assert Pointers().next[q[i]] == At(q, i + 1);
        curr := next[curr];
        i := i + 1;
      }
    }

    method AddToQueue(p: int, level: int)
      requires Valid() && Slot(p) && 0 <= level < NLEVEL && !Queued(View(), p)
      modifies this`queues, proc, next, prev, head, tail
      ensures Valid() && View() == SchedTable.AddToQueue(old(View()), p, level)
    {
      hide Queues;
      hide Chain;
      ghost var t, k := View(), Pointers();
      ghost var t' := SchedTable.AddToQueue(t, p, level);
      ghost var q := queues[level];
      AddRepresents(k, t, p, level);
      AddToQueueKeepsQueues(t, p, level);
      proc[p] := proc[p].(level := level, entryTime := ticks);
      next[p], prev[p] := NOSLOT, NOSLOT;
      assert Pointers() == k && proc[..] == t'.procs;
      ChainPointers(k, level, q, InsertPos(t'.procs, q, p, 0));
      var curr := FindPlace(level, p, q);
      if curr != NOSLOT {
        SpliceBefore(level, p, curr);
      } else {
        SpliceLast(level, p);
      }
      queues := t'.queues;
    }

    method RemoveFromQueue(p: int)
      requires Valid() && Slot(p)
      modifies this`queues, next, prev, head, tail
      ensures Valid() && View() == SchedTable.RemoveFromQueue(old(View()), p)
    {
      hide Queues;
      hide Chain;
      ghost var t, k := View(), Pointers();
      RemoveGuardExact(k, t, p);
      if prev[p] == NOSLOT && next[p] == NOSLOT && head[proc[p].level] != p {
        return;
      }
      RemoveRepresents(k, t, p);
      RemoveFromQueueKeepsQueues(t, p);
      SpliceOut(proc[p].level, p);
      queues := SchedTable.RemoveFromQueue(t, p).queues;
    }

    method GetNextProc() returns (p: int)
      requires Valid()
      ensures p == NextProc(View())
    {
      ghost var t := View();
      var lv := 0;
      while lv < NLEVEL
        invariant 0 <= lv <= NLEVEL
        invariant forall l :: 0 <= l < lv ==> t.queues[l] == []
      {
        assert Chain(Pointers(), lv, t.queues[lv]);
        p := head[lv];
        if p != NOSLOT { return; }
        lv := lv + 1;
      }
      p := NOSLOT;
    }

    /** Overwrite the entry of a process that is on no queue. */
    method Store(i: int, e: Entry)
      requires Valid() && Slot(i) && 0 <= e.level < NLEVEL
      requires Queued(View(), i) ==>
        e.level == proc[i].level && e.io == proc[i].io && e.entryTime == proc[i].entryTime
      modifies proc
      ensures Valid() && View() == Put(old(View()), i, e)
    {
      hide Queues;
      ghost var t := View();
      proc[i] := e;
      assert View() == Put(t, i, e);
      PutKeepsQueues(t, i, e);
      SameQueuesRepresent(Pointers(), t, View());
    }

    method Enqueue(i: int, e: Entry)
      requires Valid() && Slot(i) && 0 <= e.level < NLEVEL && !Queued(View(), i)
      modifies this`queues, proc, next, prev, head, tail
      ensures Valid() && View() == SchedSteps.Enqueue(old(View()), i, e)
      ensures proc[i] == e.(entryTime := ticks) && |queues| == NLEVEL && i in queues[e.level]
    {
      hide Queues;
      PutKeepsQueues(View(), i, e);
      Store(i, e);
      AddToQueue(i, e.level);
    }

    method WakeIfSleeping(p: int, chan: Chan)
      requires Valid() && QueueInv(View()) && Slot(p)
      modifies this`queues, proc, next, prev, head, tail
      ensures Valid() && QueueInv(View())
      ensures View() == if SleepsOn(old(proc[p]), chan) then MakeRunnable(old(View()), p) else old(View())
    {
      hide Queues;
      hide QueueInv;
      hide Represents;
      hide SchedTable.AddToQueue;
      if proc[p].state == Sleeping && proc[p].chan == chan {
        EnqueueKeepsInv(View(), p, proc[p].(state := Runnable));
        RunnableIffQueued(View(), p);
        Enqueue(p, proc[p].(state := Runnable));
      }
    }

    method Wakeup1(chan: Chan)
      requires Valid() && QueueInv(View())
      modifies this`queues, proc, next, prev, head, tail
      ensures Valid() && QueueInv(View()) && View() == Wakeup(old(View()), chan)
    {
      hide Queues;
      hide QueueInv;
      hide Represents;
      hide MakeRunnable;
      var p := 0;
      while p < NPROC
        invariant 0 <= p <= NPROC && Valid() && QueueInv(View())
        invariant WakeFrom(View(), chan, p) == Wakeup(old(View()), chan)
      {
        WakeIfSleeping(p, chan);
        p := p + 1;
      }
    }

    // ----- the timer interrupt

    method UpdateAllProcTimers()
      requires Valid() && QueueInv(View())
      modifies proc
      ensures Valid() && QueueInv(View()) && View() == UpdateTimers(old(View()))
      ensures forall i :: 0 <= i < NPROC ==> Advanced(old(proc[i]), proc[i])
    {
      hide Queues;
      hide QueueInv;
      hide Represents;
      ghost var t := View();
      var p := 0;
      while p < NPROC
        invariant 0 <= p <= NPROC
        invariant forall i :: 0 <= i < NPROC ==> proc[i] == if i < p then Timed(t.procs[i]) else t.procs[i]
      {
        if proc[p].pid != 0 {
          if proc[p].state == Running {
            proc[p] := proc[p].(burst := proc[p].burst + 1, total := proc[p].total + 1);
          } else if proc[p].state == Runnable {
            proc[p] := proc[p].(wait := proc[p].wait + 1);
          } else if proc[p].state == Sleeping {
            proc[p] := proc[p].(io := proc[p].io + 1);
          }
        }
        p := p + 1;
      }
      assert proc[..] == UpdateTimers(t).procs;
      assert forall i :: 0 <= i < NPROC ==> proc[i] == Timed(old(proc[i]));
      UpdateTimersKeepsInv(t);
      SameQueuesRepresent(Pointers(), t, View());
    }

    method DemoteProcess(p: int)
      requires Valid() && Slot(p) && !Queued(View(), p)
      modifies proc
      ensures Valid() && View() == Put(old(View()), p, Demoted(old(proc[p])))
    {
      var e := proc[p];
      if e.kind == Init || e.kind == Shell {
        assert View() == Put(View(), p, e);
        return;
      }
      if e.level == 3 {
        Store(p, e.(burst := 0));
        return;
      }
      Store(p, e.(level := e.level + 1, burst := 0, wait := 0, io := 0));
    }

    method CheckTimeQuantum(p: int)
      requires Valid() && Slot(p) && !Queued(View(), p)
      modifies proc
      ensures Valid() && View() == Put(old(View()), p, CheckedQuantum(old(proc[p])))
    {
      if proc[p].burst >= TimeQuantum(proc[p].level) {
        DemoteProcess(p);
      } else {
        assert View() == Put(View(), p, proc[p]);
      }
    }

    method PromoteProcess(p: int)
      requires Valid() && Slot(p)
      modifies this`queues, proc, next, prev, head, tail
      ensures Valid() && View() == Promote(old(View()), p)
    {
      hide Queues, Represents, SchedSteps.Enqueue;
      if proc[p].kind == Init || proc[p].kind == Shell || proc[p].level == 0 { return; }
      RemoveFromQueueKeepsQueues(View(), p);
      RemoveFromQueue(p);
      Enqueue(p, proc[p].(level := proc[p].level - 1, wait := 0, burst := 0));
    }

    /** The inner loop of check_aging: walk list lv, promoting as it goes.  The pointer to the
        next process is read before the current one is moved to another list. */
    method AgeList(lv: int)
      requires Valid() && QueueInv(View()) && 1 <= lv < NLEVEL
      modifies this`queues, proc, next, prev, head, tail
      ensures Valid() && QueueInv(View())
      ensures View() == SchedSteps.AgeList(old(View()), old(View()).queues[lv])
    {
      hide Queues;
      hide QueueInv;
      hide Represents;
      hide Promote;
      ghost var rest := queues[lv];
      ghost var goal := SchedSteps.AgeList(View(), rest);
      HeadOfList(Pointers(), View(), lv, rest);
      var tmp := head[lv];
      while tmp != NOSLOT
        invariant Valid() && QueueInv(View())
        invariant Slots(rest) && Tail(rest, queues[lv]) && tmp == At(rest, 0)
        invariant SchedSteps.AgeList(View(), rest) == goal
        decreases |rest|
      {
        NextInList(Pointers(), View(), lv, rest);
        var nextProc := next[tmp];
        if proc[tmp].wait >= AGING {
          PromoteKeepsInv(View(), tmp);
          PromoteKeepsTail(View(), lv, rest);
          PromoteProcess(tmp);
        }
        tmp := nextProc;
        rest := rest[1..];
      }
    }

    method CheckAging()
      requires Valid() && QueueInv(View())
      modifies this`queues, proc, next, prev, head, tail
      ensures Valid() && QueueInv(View()) && View() == SchedSteps.CheckAging(old(View()))
    {
      hide Queues;
      hide QueueInv;
      hide Represents;
      hide SchedSteps.AgeList;
      var lv := 1;
      while lv < NLEVEL
        invariant 1 <= lv <= NLEVEL && Valid() && QueueInv(View())
        invariant AgeLevels(View(), lv) == AgeLevels(old(View()), 1)
      {
        AgeList(lv);
        lv := lv + 1;
      }
    }

    /** The part of the timer branch of trap that holds ptable.lock. */
    method TimerInterrupt(cur: int)
      requires Valid() && QueueInv(View()) && Slot(cur) && proc[cur].state == Running
      modifies this`queues, proc, next, prev, head, tail
      ensures Valid() && QueueInv(View()) && View() == TimerSection(old(View()), cur)
    {
      hide Queues;
      hide QueueInv;
      hide Represents;
      UpdateAllProcTimers();
      ghost var t := View();
      RunnableIffQueued(t, cur);
      PutKeepsInv(t, cur, Charged(t.procs[cur]));
      if proc[cur].endTime > 0 && proc[cur].total >= proc[cur].endTime {
        Store(cur, proc[cur].(killed := true));
      } else if !proc[cur].killed {
        CheckTimeQuantum(cur);
      } else {
        assert View() == Put(View(), cur, proc[cur]);
      }
      CheckAging();
    }

    method Tick()
      requires Valid() && QueueInv(View())
      modifies this`ticks, this`queues, proc, next, prev, head, tail
      ensures Valid() && QueueInv(View()) && View() == SchedSteps.Tick(old(View()))
    {
      hide Queues;
      hide QueueInv;
      hide Represents;
      hide Wakeup;
      ghost var t := View();
      ClockKeepsQueueInv(t, (ticks + 1) % UINT);
      ticks := (ticks + 1) % UINT;
      SameQueuesRepresent(Pointers(), t, View());
      Wakeup1(OnTicks);
    }

    // ----- scheduling

    /** One round of the scheduler loop, up to the switch to the chosen process. */
    method Schedule() returns (p: int)
      requires Valid() && QueueInv(View())
      modifies this`queues, proc, next, prev, head, tail
      ensures Valid() && View() == Dispatch(old(View())) && p == NextProc(old(View()))
    {
      hide Queues;
      hide Represents;
      p := GetNextProc();
      DispatchExact(View());
      if p != NOSLOT && proc[p].state == Runnable && proc[p].kstack {
        Store(p, proc[p].(state := Running, chan := NoChan));
        RemoveFromQueue(p);
      }
    }

    method Yield(cur: int)
      requires Valid() && QueueInv(View()) && Slot(cur) && proc[cur].state == Running
      modifies this`queues, proc, next, prev, head, tail
      ensures Valid() && View() == SchedSteps.Yield(old(View()), cur)
      ensures proc[cur].state == Runnable && cur in queues[proc[cur].level]
    {
      Enqueue(cur, proc[cur].(state := Runnable));
    }

    method Sleep(cur: int, chan: Chan)
      requires Valid() && QueueInv(View()) && Slot(cur) && proc[cur].state == Running
      modifies proc
      ensures Valid() && View() == SchedSteps.Sleep(old(View()), cur, chan)
      ensures proc[cur].state == Sleeping && proc[cur].chan == chan
    {
      Store(cur, proc[cur].(state := Sleeping, chan := chan));
    }

    /** Returns 0 if some slot has the pid, else -1. */
    method Kill(pid: int) returns (r: int)
      requires Valid() && QueueInv(View())
      modifies this`queues, proc, next, prev, head, tail
      ensures Valid() && View() == SchedSteps.Kill(old(View()), pid)
      ensures r == if exists i :: 0 <= i < NPROC && old(proc[i]).pid == pid then 0 else -1
    {
      hide Queues;
      hide Represents;
      ghost var t := View();
      var p := 0;
      while p < NPROC
        invariant 0 <= p <= NPROC
        invariant forall i :: 0 <= i < p ==> proc[i].pid != pid
      {
        if proc[p].pid == pid {
          assert FindPid(t.procs, pid, 0) == p;
          RunnableIffQueued(t, p);
          if proc[p].state == Sleeping {
            Enqueue(p, proc[p].(killed := true, state := Runnable));
          } else {
            Store(p, proc[p].(killed := true));
          }
          return 0;
        }
        p := p + 1;
      }
      return -1;
    }

    method SetProcInfo(cur: int, level: int, burst: int, wait: int, io: int, endTime: int)
      requires Valid() && QueueInv(View()) && Slot(cur) && proc[cur].state == Running
      modifies proc
      ensures View() == SchedSteps.SetProcInfo(old(View()), cur, level, burst, wait, io, endTime)
      ensures 0 <= level < NLEVEL ==> Valid()
    {
      ghost var was := View();
      if 0 <= level < NLEVEL {
        PutKeepsQueues(was, cur, proc[cur].(level := level, burst := burst, wait := wait, io := io, endTime := endTime));
      }
      proc[cur] := proc[cur].(level := level, burst := burst, wait := wait, io := io, endTime := endTime);
      assert View() == SchedSteps.SetProcInfo(was, cur, level, burst, wait, io, endTime);
      hide Queues;
    }

    // ----- process creation and exit

    method ScanUnused() returns (p: int)
      requires proc.Length == NPROC
      ensures p == FindUnused(proc[..], 0)
    {
      p := 0;
      while p < NPROC
        invariant 0 <= p <= NPROC
        invariant forall i :: 0 <= i < p ==> proc[i].state != Unused
      {
        if proc[p].state == Unused { return; }
        p := p + 1;
      }
    }

    /** The locked part of allocproc; returns the claimed slot or NOSLOT. */
    method AllocProc() returns (np: int)
      requires Valid() && QueueInv(View())
      modifies this`nextpid, proc
      ensures Valid() && View() == SchedSteps.AllocProc(old(View()))
      ensures if np == NOSLOT then forall i :: 0 <= i < NPROC ==> old(proc[i]).state != Unused
              else Slot(np) && old(proc[np]).state == Unused && proc[np].state == Embryo && proc[np].pid == old(nextpid)
    {
      hide Queues;
      hide QueueInv;
      hide Represents;
      hide FindUnused;
      np := ScanUnused();
      if np == NPROC { return NOSLOT; }
      RunnableIffQueued(View(), np);
      Store(np, proc[np].(state := Embryo, pid := nextpid, level := 0, burst := 0, wait := 0, io := 0,
                          endTime := -1, total := 0, entryTime := 0));
      ghost var t := View();
      nextpid := nextpid + 1;
      NextPidKeepsQueues(t, nextpid);
      SameQueuesRepresent(Pointers(), t, View());
    }

    method ForkFail(np: int)
      requires Valid() && QueueInv(View()) && Slot(np) && proc[np].state == Embryo
      modifies proc
      ensures Valid() && View() == SchedSteps.ForkFail(old(View()), np)
    {
      Store(np, proc[np].(state := Unused, kstack := false));
    }

    method Fork(cur: int, np: int)
      requires Valid() && QueueInv(View()) && Slot(cur) && Slot(np) && proc[np].state == Embryo
      modifies this`queues, proc, next, prev, head, tail
      ensures Valid() && View() == ForkOk(old(View()), cur, np)
      ensures proc[np].state == Runnable && proc[np].parent == cur && proc[np].level == if old(proc[cur]).pid == 1 then 3 else 0
    {
      var e := proc[np].(kstack := true, parent := cur, state := Runnable);
      if proc[cur].pid == 1 {
        e := e.(level := 3, kind := Shell);
      } else {
        e := e.(level := 0);
      }
      e := e.(burst := 0, wait := 0, io := 0, entryTime := 0, endTime := -1, total := 0);
      Enqueue(np, e);
    }

    method Exit(cur: int)
      requires Valid() && QueueInv(View()) && Slot(cur) && proc[cur].state == Running && cur != initproc
      modifies this`queues, proc, next, prev, head, tail
      ensures Valid() && View() == SchedSteps.Exit(old(View()), cur)
    {
      hide Queues;
      hide QueueInv;
      hide Represents;
      hide Wakeup;
      ghost var t := View();
      RemoveRunningIsNoop(t, cur);
      RemoveFromQueue(cur);
      Wakeup1(ParentChan(proc[cur].parent));
      ghost var goal := Reparent(View(), cur, 0);
      WakeupExact(t, ParentChan(t.procs[cur].parent));
      var p := 0;
      while p < NPROC
        invariant 0 <= p <= NPROC && Valid() && QueueInv(View()) && initproc == t.initproc
        invariant Reparent(View(), cur, p) == goal
        invariant proc[cur].state == Running
      {
        if proc[p].parent == cur {
          PutParentKeepsInv(View(), p, initproc);
          Store(p, proc[p].(parent := initproc));
          if proc[p].state == Zombie {
            WakeupExact(View(), OnProc(initproc));
            Wakeup1(OnProc(initproc));
          }
        }
        p := p + 1;
      }
      RunnableIffQueued(View(), cur);
      Store(cur, proc[cur].(state := Zombie));
    }

    /** wait's scan: the first zombie child, or NPROC, and whether there was any child before it. */
    method ScanChildren(cur: int) returns (z: int, havekids: bool)
      requires proc.Length == NPROC
      ensures z == FindZombieChild(proc[..], cur, 0)
      ensures z == NPROC ==> (havekids <==> HasChild(proc[..], cur))
    {
      havekids, z := false, 0;
      while z < NPROC
        invariant 0 <= z <= NPROC
        invariant forall i :: 0 <= i < z ==> !(proc[i].parent == cur && proc[i].state == Zombie)
        invariant havekids <==> exists i :: 0 <= i < z && proc[i].parent == cur
      {
        if proc[z].parent == cur {
          havekids := true;
          if proc[z].state == Zombie { return; }
        }
        z := z + 1;
      }
    }

    /** One turn of wait's loop. */
    method Wait(cur: int) returns (r: WaitResult)
      requires Valid() && QueueInv(View()) && Slot(cur) && proc[cur].state == Running
      modifies proc
      ensures Valid() && View() == SchedSteps.Wait(old(View()), cur) && r == WaitOutcome(old(View()), cur)
    {
      hide Queues;
      hide QueueInv;
      hide Represents;
      hide HasChild;
      hide FindZombieChild;
      var z, havekids := ScanChildren(cur);
      if z < NPROC {
        RunnableIffQueued(View(), z);
        r := Reaped(proc[z].pid);
        Store(z, proc[z].(kstack := false, pid := 0, parent := NOSLOT, killed := false, state := Unused));
      } else if !havekids || proc[cur].killed {
        r := NoChildren;
      } else {
        r := Slept;
        Sleep(cur, OnProc(cur));
      }
    }

    /** Every step of the state machine is taken by the code. */
    method Execute(e: Event)
      requires Valid() && Inv(View()) && Enabled(View(), e)
      modifies this, proc, next, prev, head, tail
      ensures Valid() && Inv(View()) && View() == Step(old(View()), e)
    {
      hide Queues;
      hide QueueInv;
      hide Represents;
      hide Pids;
      hide Parents;
      StepKeepsInv(View(), e);
      match e {
        case Ticks => Tick();
        case Timer(cur) => TimerInterrupt(cur);
        case Dispatches => var _ := Schedule();
        case Yields(cur) => Yield(cur);
        case Sleeps(cur, chan) => Sleep(cur, chan);
        case Wakes(chan) => Wakeup1(chan);
        case Kills(pid) => var _ := Kill(pid);
        case Faults(cur) => Store(cur, proc[cur].(killed := true));
        case SetsInfo(cur, level, burst, wait, io, endTime) => SetProcInfo(cur, level, burst, wait, io, endTime);
        case Allocs => var _ := AllocProc();
        case ForkFails(np) => ForkFail(np);
        case Forks(cur, np) => Fork(cur, np);
        case Exits(cur) => Exit(cur);
        case Waits(cur) => var _ := Wait(cur);
      }
    }
  }

  lemma ClockKeepsQueueInv(t: Table, now: int)
    requires QueueInv(t)
    ensures QueueInv(t.(ticks := now))
    ensures forall i :: 0 <= i < NPROC ==> (Queued(t.(ticks := now), i) <==> Queued(t, i))
  {
    CountersKeepQueueInv(t, now, t.nextpid);
    assert t.(ticks := now) == t.(ticks := now, nextpid := t.nextpid);
  }

  lemma NextPidKeepsQueues(t: Table, pid: int)
    requires Queues(t)
    ensures Queues(t.(nextpid := pid))
    ensures forall i :: 0 <= i < NPROC ==> (Queued(t.(nextpid := pid), i) <==> Queued(t, i))
  {
    assert forall l :: 0 <= l < NLEVEL ==> WellFormedQueue(t, l) ==> WellFormedQueue(t.(nextpid := pid), l);
  }

  /** rest is the end of q. */
  ghost predicate Tail(rest: seq<int>, q: seq<int>) {
    |rest| <= |q| && q[|q| - |rest|..] == rest
  }

  lemma HeadOfList(k: Links, t: Table, l: int, q: seq<int>)
    requires Shape(t) && Represents(k, t) && 0 <= l < NLEVEL && q == t.queues[l]
    ensures k.head[l] == At(q, 0)
  {
    assert Chain(k, l, q);
  }

  lemma NextInList(k: Links, t: Table, l: int, rest: seq<int>)
    requires QueueInv(t) && Represents(k, t) && 0 <= l < NLEVEL && rest != [] && Tail(rest, t.queues[l])
    ensures Slot(rest[0]) && k.next[rest[0]] == At(rest, 1) && t.procs[rest[0]].state == Runnable && t.procs[rest[0]].level == l
    ensures Slots(rest[1..]) && Tail(rest[1..], t.queues[l]) && At(rest, 1) == At(rest[1..], 0)
  {
    var q := t.queues[l];
    var i := |q| - |rest|;
    assert WellFormedQueue(t, l) && Chain(k, l, q);
    assert q[i] == rest[0] && k.next[q[i]] == At(q, i + 1);
    assert i + 1 < |q| ==> q[i + 1] == rest[1];
    assert Queued(t, q[i]);
  }

  lemma PromoteKeepsTail(t: Table, l: int, rest: seq<int>)
    requires QueueInv(t) && 1 <= l < NLEVEL && rest != [] && Tail(rest, t.queues[l]) && Slot(rest[0]) && t.procs[rest[0]].level == l
    ensures Tail(rest[1..], Promote(t, rest[0]).queues[l])
  {
    assert WellFormedQueue(t, l);
    TailAfterRemove(t.queues[l], rest);
    hide Queues;
    hide InsertAt;
    hide InsertPos;
  }

  lemma TailAfterRemove(q: seq<int>, rest: seq<int>)
    requires Distinct(q) && rest != [] && Tail(rest, q)
    ensures rest[0] in q && Tail(rest[1..], q) && Tail(rest[1..], RemoveAt(q, IndexOf(q, rest[0])))
  {
    var i := |q| - |rest|;
    assert q[i] == rest[0];
    assert RemoveAt(q, i)[i..] == rest[1..];
  }

  lemma RunnableIffQueued(t: Table, i: int)
    requires QueueInv(t) && Slot(i)
    ensures Queued(t, i) <==> t.procs[i].state == Runnable
  {
  }
}
