/** The process table of the MLFQ scheduler as a value: one entry for each slot of `ptable.proc`
    and the contents of the four ready queues.  Every routine of proc.c that runs under
    `ptable.lock` is a function from tables to tables.  The class in SchedHeap.dfy, which keeps
    the queues as intrusive doubly linked lists, is proved to compute these functions. */
module SchedTable {

  const NPROC: int := 64
  const NLEVEL: int := 4
  const AGING: int := 250
  const NOSLOT: int := -1
  const UINT: int := 0x1_0000_0000

  datatype ProcState = Unused | Embryo | Sleeping | Runnable | Running | Zombie
  datatype ProcType = Idle | Init | Shell

  /** What `chan` points at: nothing, a process slot (only `wait` sleeps there), the tick
      counter, or any other kernel address. */
  datatype Chan = NoChan | OnProc(slot: int) | OnTicks | OnAddress(address: int)

  datatype Entry = Entry(state: ProcState, pid: int, parent: int, chan: Chan, killed: bool, kstack: bool,
                         level: int, burst: int, wait: int, io: int, endTime: int, total: int,
                         entryTime: int, kind: ProcType)

  datatype Table = Table(procs: seq<Entry>, queues: seq<seq<int>>, ticks: int, nextpid: int, initproc: int)

  function TimeQuantum(level: int): int {
    if level == 0 then 10 else if level == 1 then 20 else if level == 2 then 40 else 80
  }

  predicate Ordinary(e: Entry) {
    e.kind == Idle
  }

  predicate Live(e: Entry) {
    e.state == Sleeping || e.state == Runnable || e.state == Running
  }

  predicate Used(e: Entry) {
    Live(e) || e.state == Zombie || e.state == Embryo
  }

  predicate Slot(i: int) {
    0 <= i < NPROC
  }

  ghost predicate Slots(q: seq<int>) {
    forall k :: 0 <= k < |q| ==> 0 <= q[k] < NPROC
  }

  ghost predicate Distinct(q: seq<int>) {
    forall j, k :: 0 <= j < k < |q| ==> q[j] != q[k]
  }

  // ----- the queue invariant

  /** The strict comparison of add_to_queue: a goes in front of b. */
  predicate Higher(a: Entry, b: Entry) {
    a.io > b.io || (a.io == b.io && a.entryTime > b.entryTime)
  }

  ghost predicate Shape(t: Table) {
    && |t.procs| == NPROC
    && |t.queues| == NLEVEL
    && Slot(t.initproc)
    && (forall i :: 0 <= i < NPROC ==> 0 <= t.procs[i].level < NLEVEL)
    && (forall l :: 0 <= l < NLEVEL ==> Slots(t.queues[l]))
  }

  /** Queue l holds distinct slots of level l. */
  ghost predicate WellFormedQueue(t: Table, l: int)
    requires |t.procs| == NPROC && 0 <= l < |t.queues|
  {
    && Slots(t.queues[l])
    && Distinct(t.queues[l])
    && (forall k :: 0 <= k < |t.queues[l]| ==> t.procs[t.queues[l][k]].level == l)
  }

  /** Queue l is in descending order of (io, entryTime). */
  ghost predicate SortedQueue(procs: seq<Entry>, q: seq<int>)
    requires |procs| == NPROC
    requires Slots(q)
  {
    forall j, k :: 0 <= j < k < |q| ==> !Higher(procs[q[k]], procs[q[j]])
  }

  ghost predicate Queues(t: Table)
    ensures Queues(t) ==> Shape(t)
  {
    && Shape(t)
    && forall l :: 0 <= l < NLEVEL ==> WellFormedQueue(t, l) && SortedQueue(t.procs, t.queues[l])
  }

  predicate Queued(t: Table, i: int)
    requires |t.procs| == NPROC && |t.queues| == NLEVEL && Slot(i) && 0 <= t.procs[i].level < NLEVEL
  {
    i in t.queues[t.procs[i].level]
  }

  /** A process is on a queue exactly when it is RUNNABLE; by WellFormedQueue it is then on the
      queue of its own level, once, and on no other. */
  ghost predicate QueueInv(t: Table)
    ensures QueueInv(t) ==> Queues(t)
  {
    && Queues(t)
    && forall i :: 0 <= i < NPROC ==> (Queued(t, i) <==> t.procs[i].state == Runnable)
  }

  // ----- add_to_queue and remove_from_queue

  function Put(t: Table, i: int, e: Entry): (r: Table)
    requires Shape(t) && Slot(i) && 0 <= e.level < NLEVEL
    ensures Shape(r)
  {
    t.(procs := t.procs[i := e])
  }

  /** The first position, from k on, whose process p is placed in front of. */
  function InsertPos(procs: seq<Entry>, q: seq<int>, p: int, k: nat): (r: nat)
    requires |procs| == NPROC && Slot(p) && k <= |q|
    requires Slots(q)
    ensures k <= r <= |q|
    ensures forall j :: k <= j < r ==> !Higher(procs[p], procs[q[j]])
    ensures r < |q| ==> Higher(procs[p], procs[q[r]])
    decreases |q| - k
  {
    if k == |q| || Higher(procs[p], procs[q[k]]) then k else InsertPos(procs, q, p, k + 1)
  }

  function InsertAt(q: seq<int>, k: nat, p: int): (r: seq<int>)
    requires k <= |q|
    ensures Slots(q) && Slot(p) ==> Slots(r)
  {
    q[..k] + [p] + q[k..]
  }

  function AddToQueue(t: Table, p: int, level: int): (r: Table)
    requires Shape(t) && Slot(p) && 0 <= level < NLEVEL
    ensures Shape(r)
  {
    var procs := t.procs[p := t.procs[p].(level := level, entryTime := t.ticks)];
    var q := t.queues[level];
    t.(procs := procs, queues := t.queues[level := InsertAt(q, InsertPos(procs, q, p, 0), p)])
  }

  function IndexOf(q: seq<int>, p: int): (k: nat)
    requires p in q
    ensures k < |q| && q[k] == p && p !in q[..k]
  {
    if q[0] == p then 0 else 1 + IndexOf(q[1..], p)
  }

  function RemoveAt(q: seq<int>, k: nat): (r: seq<int>)
    requires k < |q|
    ensures Slots(q) ==> Slots(r)
  {
    q[..k] + q[k + 1..]
  }

  function RemoveFromQueue(t: Table, p: int): (r: Table)
    requires Shape(t) && Slot(p)
    ensures Shape(r)
  {
    var l := t.procs[p].level;
    if p in t.queues[l] then t.(queues := t.queues[l := RemoveAt(t.queues[l], IndexOf(t.queues[l], p))]) else t
  }

  lemma InsertAtMembers(q: seq<int>, k: nat, p: int)
    requires k <= |q|
    ensures forall x :: x in InsertAt(q, k, p) <==> x == p || x in q
    ensures Distinct(q) && p !in q ==> Distinct(InsertAt(q, k, p))
  {
  }

  /** Queueing a process that is on no queue keeps every queue well-formed and sorted, and adds
      it to the queue of the level asked for and to no other. */
  lemma AddToQueueKeepsQueues(t: Table, p: int, level: int)
    requires Queues(t) && Slot(p) && 0 <= level < NLEVEL && !Queued(t, p)
    ensures var t' := AddToQueue(t, p, level);
      && Queues(t')
      && t'.procs == t.procs[p := t.procs[p].(level := level, entryTime := t.ticks)]
      && (forall i :: 0 <= i < NPROC ==> (Queued(t', i) <==> Queued(t, i) || i == p))
  {
    var t' := AddToQueue(t, p, level);
    hide AddToQueue, WellFormedQueue, SortedQueue;
    forall l | 0 <= l < NLEVEL
      ensures WellFormedQueue(t', l) && SortedQueue(t'.procs, t'.queues[l])
      ensures forall x :: x in t'.queues[l] <==> x in t.queues[l] || (l == level && x == p)
    {
      AddedLevel(t, p, level, l);
    }
  }

  lemma AddedLevel(t: Table, p: int, level: int, l: int)
    requires Queues(t) && Slot(p) && 0 <= level < NLEVEL && !Queued(t, p) && 0 <= l < NLEVEL
    ensures var t' := AddToQueue(t, p, level);
      && t'.procs == t.procs[p := t.procs[p].(level := level, entryTime := t.ticks)]
      && WellFormedQueue(t', l) && SortedQueue(t'.procs, t'.queues[l])
      && (forall x :: x in t'.queues[l] <==> x in t.queues[l] || (l == level && x == p))
  {
    assert WellFormedQueue(t, l) && SortedQueue(t.procs, t.queues[l]);
    assert p !in t.queues[l];
    hide Queues;
    if l == level {
      var procs := AddToQueue(t, p, level).procs;
      var k := InsertPos(procs, t.queues[l], p, 0);
      InsertAtMembers(t.queues[l], k, p);
      InsertSorted(procs, t.queues[l], p, k);
    }
  }

  lemma InsertSorted(procs: seq<Entry>, q: seq<int>, p: int, k: nat)
    requires |procs| == NPROC && Slot(p) && k <= |q| && p !in q
    requires Slots(q)
    requires SortedQueue(procs, q)
    requires forall j :: 0 <= j < k ==> !Higher(procs[p], procs[q[j]])
    requires k < |q| ==> Higher(procs[p], procs[q[k]])
    ensures Slots(InsertAt(q, k, p)) 
    ensures SortedQueue(procs, InsertAt(q, k, p))
  {
  }

  /** Removal takes out exactly p, and does nothing when p is on no queue. */
  lemma RemoveFromQueueKeepsQueues(t: Table, p: int)
    requires Queues(t) && Slot(p)
    ensures var t' := RemoveFromQueue(t, p);
      && Queues(t')
      && t'.procs == t.procs
      && (forall i :: 0 <= i < NPROC ==> (Queued(t', i) <==> Queued(t, i) && i != p))
  {
  }

  // ----- the first table

  function FreeEntry(): Entry {
    Entry(Unused, 0, NOSLOT, NoChan, false, false, 0, 0, 0, 0, 0, 0, 0, Idle)
  }

  function InitEntry(): Entry {
    FreeEntry().(state := Runnable, pid := 1, kstack := true, level := 3, endTime := -1, kind := Init)
  }

  /** The table after userinit: init in slot 0, queued at level 3. */
  function Boot(): (t: Table)
    ensures Shape(t)
    ensures t.procs[0] == InitEntry() && forall i :: 0 < i < NPROC ==> t.procs[i] == FreeEntry()
    ensures t.ticks == 0 && t.nextpid == 2 && t.initproc == 0
  {
    Table([InitEntry()] + seq(NPROC - 1, i => FreeEntry()), [[], [], [], [0]], 0, 2, 0)
  }

  /** The table pinit leaves, with init's entry filled in but not yet queued. */
  function BeforeBoot(): (t: Table)
    ensures Shape(t)
  {
    Table(Boot().procs, [[], [], [], []], 0, 2, 0)
  }

  lemma QueueingInitBoots()
    ensures Queues(BeforeBoot()) && !Queued(BeforeBoot(), 0)
    ensures AddToQueue(BeforeBoot(), 0, 3) == Boot()
  {
    var t := AddToQueue(BeforeBoot(), 0, 3);
    assert t.procs == Boot().procs;
    assert InsertAt([], 0, 0) == [0];
  }
}
