/** The logging system as a state machine over single block writes, with a crash possible before
    each of them, inside commit and inside recovery alike. */
module LogMachine {
  import opened LogDisk

  /** One log_write: the operation that made it, the block and the contents. */
  datatype Write = Write(op: int, block: int, data: Block)
  type Txn = seq<Write>

  /** Open: operations may run.  Logging(i): commit has copied i blocks to the log.
      Installing(i): the header is on disk and i blocks are home.  Recovering(lh, i): after a
      crash, i of the blocks lh that the header names are home. */
  datatype Phase = Open | Logging(i: nat) | Installing(i: nat) | Recovering(lh: seq<int>, i: nat)

  /** The disk; the pinned buffers; log.lh; for each outstanding operation the number of blocks it
      has added to the log; the phase.  For the statements only: names for the outstanding
      operations, in the order of `used`, and the next name; the transactions that have reached
      the disk, in commit order; and the log_writes since. */
  datatype Sys = Sys(disk: Image, pinned: map<int, Block>, lh: seq<int>, used: seq<int>, phase: Phase,
                     ops: seq<int>, nextOp: int, kept: seq<Txn>, current: Txn)

  datatype Event = Begin | LogWrite(op: int, block: int, data: Block) | End(op: int) | DiskWrite | Crash

  // ----- guards of the source

  /** log.committing, or the log is being recovered at boot. */
  predicate Busy(s: Sys) {
    !s.phase.Open?
  }

  /** begin_op goes ahead rather than sleep. */
  predicate Admits(s: Sys) {
    !Busy(s) && |s.lh| + (|s.used| + 1) * MAXOPBLOCKS <= LOGSIZE
  }

  /** The panic "too big a transaction" at the head of log_write. */
  predicate TooBig(g: Geometry, s: Sys) {
    |s.lh| >= LOGSIZE || |s.lh| >= g.size - 1
  }

  predicate Outstanding(s: Sys, op: int) {
    0 <= op < |s.used| == |s.ops|
  }

  /** What may happen next.  An operation adds at most MAXOPBLOCKS blocks to the log, writes home
      blocks, and log_write does not panic. */
  predicate Enabled(g: Geometry, s: Sys, e: Event) {
    match e
    case Begin => Admits(s)
    case LogWrite(op, b, _) =>
      Outstanding(s, op) && Home(g, b) && !TooBig(g, s) && (b !in s.lh ==> s.used[op] < MAXOPBLOCKS)
    case End(op) => Outstanding(s, op)
    case DiskWrite => Busy(s)
    case Crash => true
  }

  // ----- steps

  /** log_write with absorption. */
  function DoLogWrite(s: Sys, op: int, b: int, data: Block): Sys
    requires Outstanding(s, op)
  {
    s.(lh := if b in s.lh then s.lh else s.lh + [b],
       used := if b in s.lh then s.used else s.used[op := s.used[op] + 1],
       pinned := s.pinned[b := data],
       current := s.current + [Write(s.ops[op], b, data)])
  }

  /** end_op: the last operation to end starts the commit; with nothing logged commit does nothing. */
  function DoEnd(s: Sys, op: int): Sys
    requires Outstanding(s, op)
  {
    var s' := s.(used := s.used[..op] + s.used[op + 1..], ops := s.ops[..op] + s.ops[op + 1..]);
    if s'.used != [] then s'
    else if s.lh == [] then s'.(kept := s.kept + [s.current], current := [])
    else s'.(phase := Logging(0))
  }

  /** The next block write of commit or of recovery. */
  function DoDiskWrite(g: Geometry, s: Sys): Sys
    requires Shape(g, s) && Busy(s)
  {
    match s.phase
    case Logging(i) =>
      if i < |s.lh| then s.(disk := s.disk[g.start + 1 + i := s.pinned[s.lh[i]]], phase := Logging(i + 1))
      else s.(disk := s.disk[g.start := PutHeader(s.disk[g.start], s.lh)], phase := Installing(0))
    case Installing(i) =>
      if i < |s.lh| then
        s.(disk := s.disk[s.lh[i] := s.disk[g.start + 1 + i]], pinned := s.pinned - {s.lh[i]}, phase := Installing(i + 1))
      else
        s.(disk := s.disk[g.start := PutHeader(s.disk[g.start], [])], phase := Open, lh := [],
           kept := s.kept + [s.current], current := [])
    case Recovering(lh, i) =>
      if i < |lh| then s.(disk := s.disk[lh[i] := s.disk[g.start + 1 + i]], phase := Recovering(lh, i + 1))
      else s.(disk := s.disk[g.start := PutHeader(s.disk[g.start], [])], phase := Open)
  }

  /** Memory is lost.  The transaction being committed survives if its header is on disk. */
  function DoCrash(g: Geometry, s: Sys): Sys
    requires Shape(g, s)
  {
    Sys(s.disk, map[], [], [], Recovering(HeaderOf(s.disk[g.start]), 0), [], s.nextOp,
        if s.phase.Installing? then s.kept + [s.current] else s.kept, [])
  }

  function Step(g: Geometry, s: Sys, e: Event): Sys
    requires Shape(g, s) && Enabled(g, s, e)
  {
    match e
    case Begin => s.(used := s.used + [0], ops := s.ops + [s.nextOp], nextOp := s.nextOp + 1)
    case LogWrite(op, b, data) => DoLogWrite(s, op, b, data)
    case End(op) => DoEnd(s, op)
    case DiskWrite => DoDiskWrite(g, s)
    case Crash => DoCrash(g, s)
  }

  // ----- what the transactions mean

  function Apply(d: Image, w: Txn): (r: Image)
    requires forall i :: 0 <= i < |w| ==> 0 <= w[i].block < |d|
    ensures |r| == |d|
    decreases |w|
  {
    if w == [] then d
    else
      var e := Apply(d, w[..|w| - 1]);
      e[w[|w| - 1].block := w[|w| - 1].data]
  }

  ghost predicate OnHome(g: Geometry, w: Txn) {
    forall i :: 0 <= i < |w| ==> Home(g, w[i].block)
  }

  ghost predicate AllOnHome(g: Geometry, ts: seq<Txn>) {
    forall i :: 0 <= i < |ts| ==> OnHome(g, ts[i])
  }

  function ApplyAll(g: Geometry, d: Image, ts: seq<Txn>): (r: Image)
    requires |d| == g.len && AllOnHome(g, ts)
    ensures |r| == |d|
    decreases |ts|
  {
    if ts == [] then d else Apply(ApplyAll(g, d, ts[..|ts| - 1]), ts[|ts| - 1])
  }

  // ----- the invariant

  ghost predicate Shape(g: Geometry, s: Sys) {
    && IsDisk(g, s.disk)
    && LogList(g, s.lh)
    && (s.phase.Logging? ==> s.phase.i <= |s.lh| && s.lh != [])
    && (s.phase.Installing? ==>
          s.phase.i <= |s.lh| && s.lh != [] && forall j :: 0 <= j < |s.lh| ==> (s.lh[j] in s.pinned <==> s.phase.i <= j))
    && (s.phase.Recovering? ==> LogList(g, s.phase.lh) && s.phase.i <= |s.phase.lh|)
    && (forall k :: k in s.pinned ==> k in s.lh)
    && (!s.phase.Installing? ==> forall k :: k in s.lh ==> k in s.pinned)
  }

  /** The header names nothing and the home blocks are those of e. */
  ghost predicate Unlogged(g: Geometry, d: Image, e: Image)
    requires IsDisk(g, d) && |e| == g.len
  {
    HeaderOf(d[g.start]) == [] && SameHome(g, d, e)
  }

  /** The header names lh, the log holds the blocks of e for it, the first i of them are home,
      and all other home blocks are those of e. */
  ghost predicate Logged(g: Geometry, d: Image, lh: seq<int>, i: nat, e: Image)
    requires IsDisk(g, d) && |e| == g.len && LogList(g, lh) && i <= |lh|
  {
    && HeaderOf(d[g.start]) == lh
    && (forall j :: 0 <= j < |lh| ==> d[g.start + 1 + j] == e[lh[j]])
    && (forall b :: 0 <= b < g.len && Home(g, b) && b !in lh[i..] ==> d[b] == e[b])
  }

  /** Log space still promised to the outstanding operations. */
  function Spare(used: seq<int>): int {
    if used == [] then 0 else Spare(used[..|used| - 1]) + (MAXOPBLOCKS - used[|used| - 1])
  }

  /** The reservation: what is logged and what is still promised fit the log together. */
  ghost predicate Reserved(s: Sys) {
    && |s.ops| == |s.used|
    && (forall i :: 0 <= i < |s.used| ==> 0 <= s.used[i] <= MAXOPBLOCKS)
    && |s.lh| + Spare(s.used) <= LOGSIZE
    && (Busy(s) ==> s.used == [])
    && (s.phase.Recovering? ==> s.lh == [] && s.current == [])
  }

  ghost predicate Histories(g: Geometry, init: Image, s: Sys) {
    |init| == g.len && AllOnHome(g, s.kept) && OnHome(g, s.current)
  }

  /** The home blocks as the transactions on disk left them. */
  ghost function Before(g: Geometry, init: Image, s: Sys): (r: Image)
    requires Histories(g, init, s)
    ensures |r| == g.len
  {
    ApplyAll(g, init, s.kept)
  }

  /** ... and with the log_writes made since. */
  ghost function After(g: Geometry, init: Image, s: Sys): (r: Image)
    requires Histories(g, init, s)
    ensures |r| == g.len
  {
    Apply(Before(g, init, s), s.current)
  }

  /** The pinned buffers hold the new contents of exactly the blocks in the log list. */
  ghost predicate Buffers(g: Geometry, s: Sys, before: Image, after: Image)
    requires |before| == g.len && |after| == g.len && Shape(g, s)
  {
    && (forall k :: k in s.pinned ==> s.pinned[k] == after[k])
    && (forall b :: 0 <= b < g.len && b !in s.lh ==> after[b] == before[b])
  }

  /** Disk and buffers agree with the images before and after the current transaction. */
  ghost predicate Consistent(g: Geometry, s: Sys, before: Image, after: Image) {
    && |before| == |after| == g.len && Shape(g, s)
    && Buffers(g, s, before, after)
    && match s.phase
       case Open => Unlogged(g, s.disk, before)
       case Logging(i) => Unlogged(g, s.disk, before) && forall j :: 0 <= j < i ==> s.disk[g.start + 1 + j] == after[s.lh[j]]
       case Installing(i) => Logged(g, s.disk, s.lh, i, after)
       case Recovering(lh, i) => Logged(g, s.disk, lh, i, before)
  }

  ghost predicate Inv(g: Geometry, init: Image, s: Sys)
    ensures Inv(g, init, s) ==> Shape(g, s) && Histories(g, init, s)
  {
    Reserved(s) && Histories(g, init, s) && Consistent(g, s, Before(g, init, s), After(g, init, s))
  }

  // ----- recovery of the two kinds of image

  lemma UnloggedRecovers(g: Geometry, d: Image, e: Image)
    requires IsDisk(g, d) && |e| == g.len && Unlogged(g, d, e)
    ensures SameHome(g, Recover(g, d), e)
  {
  }

  lemma LoggedRecovers(g: Geometry, d: Image, lh: seq<int>, i: nat, e: Image)
    requires IsDisk(g, d) && |e| == g.len && LogList(g, lh) && i <= |lh| && Logged(g, d, lh, i, e)
    ensures SameHome(g, Recover(g, d), e)
  {
    InstallFromExact(g, d, lh, 0);
    forall b | 0 <= b < g.len && Home(g, b) ensures Recover(g, d)[b] == e[b] {
      if b in lh {
        var j :| 0 <= j < |lh| && lh[j] == b;
      }
    }
  }

  // ----- every step keeps the invariant

  lemma ApplyAllSnoc(g: Geometry, d: Image, ts: seq<Txn>, w: Txn)
    requires |d| == g.len && AllOnHome(g, ts) && OnHome(g, w)
    ensures AllOnHome(g, ts + [w]) && ApplyAll(g, d, ts + [w]) == Apply(ApplyAll(g, d, ts), w)
  {
    assert (ts + [w])[..|ts|] == ts;
  }

  lemma ApplySnoc(g: Geometry, d: Image, w: Txn, x: Write)
    requires |d| == g.len && OnHome(g, w) && Home(g, x.block)
    ensures OnHome(g, w + [x]) && Apply(d, w + [x]) == Apply(d, w)[x.block := x.data]
  {
    assert (w + [x])[..|w|] == w;
  }

  lemma {:induction false} SpareRemove(used: seq<int>, op: nat)
    requires op < |used|
    ensures Spare(used[..op] + used[op + 1..]) == Spare(used) - (MAXOPBLOCKS - used[op])
  {
    var r := used[..op] + used[op + 1..];
    var n := |used| - 1;
    if op == n {
      assert r == used[..n];
    } else {
      SpareRemove(used[..n], op);
      assert r[..|r| - 1] == used[..n][..op] + used[..n][op + 1..];
    }
  }

  lemma {:induction false} SpareUpdate(used: seq<int>, op: nat, v: int)
    requires op < |used|
    ensures Spare(used[op := v]) == Spare(used) + used[op] - v
  {
    var n := |used| - 1;
    if op == n {
      assert used[op := v][..n] == used[..n];
    } else {
      SpareUpdate(used[..n], op, v);
      assert used[op := v][..n] == used[..n][op := v];
    }
  }

  lemma {:induction false} SpareBound(used: seq<int>)
    requires forall i :: 0 <= i < |used| ==> 0 <= used[i] <= MAXOPBLOCKS
    ensures 0 <= Spare(used) <= |used| * MAXOPBLOCKS
    ensures forall i :: 0 <= i < |used| ==> Spare(used) >= MAXOPBLOCKS - used[i]
  {
    if used != [] {
      SpareBound(used[..|used| - 1]);
    }
  }

  /** begin_op, log_write and end_op keep the reservation. */
  lemma ReservedKept(g: Geometry, s: Sys, e: Event)
    requires Shape(g, s) && Reserved(s) && Enabled(g, s, e) && (e.Begin? || e.LogWrite? || e.End?)
    ensures Reserved(Step(g, s, e))
  {
    hide LogList;
    match e {
      case Begin =>
        SpareBound(s.used);
        assert (s.used + [0])[..|s.used|] == s.used;
      case LogWrite(op, b, data) => LogWriteReserves(g, s, op, b, data);
      case End(op) => EndReserves(g, s, op);
    }
  }

  lemma LogWriteReserves(g: Geometry, s: Sys, op: int, b: int, data: Block)
    requires Shape(g, s) && Reserved(s) && Enabled(g, s, LogWrite(op, b, data))
    ensures Reserved(Step(g, s, LogWrite(op, b, data)))
  {
    hide LogList, Shape;
    SpareBound(s.used);
    SpareUpdate(s.used, op, s.used[op] + 1);
  }

  lemma EndReserves(g: Geometry, s: Sys, op: int)
    requires Shape(g, s) && Reserved(s) && Enabled(g, s, End(op))
    ensures Reserved(Step(g, s, End(op)))
  {
    hide LogList, Shape;
    SpareBound(s.used);
    SpareRemove(s.used, op);
  }

  lemma BeginKeepsInv(g: Geometry, init: Image, s: Sys)
    requires Inv(g, init, s) && Enabled(g, s, Begin)
    ensures Inv(g, init, Step(g, s, Begin))
  {
    hide HeaderOf;
    ReservedKept(g, s, Begin);
  }

  lemma LogWriteConsistent(g: Geometry, s: Sys, before: Image, after: Image, op: int, b: int, data: Block)
    requires Consistent(g, s, before, after) && Reserved(s) && Enabled(g, s, LogWrite(op, b, data))
    ensures Consistent(g, DoLogWrite(s, op, b, data), before, after[b := data])
  {
    hide HeaderOf;
    hide SameHome;
    var s' := DoLogWrite(s, op, b, data);
    assert LogList(g, s'.lh);
    assert forall k :: k in s'.lh <==> k == b || k in s.lh;
  }

  lemma LogWriteKeepsInv(g: Geometry, init: Image, s: Sys, op: int, b: int, data: Block)
    requires Inv(g, init, s) && Enabled(g, s, LogWrite(op, b, data))
    ensures Inv(g, init, Step(g, s, LogWrite(op, b, data)))
  {
    hide Apply;
    hide Consistent;
    hide Shape;
    ApplySnoc(g, Before(g, init, s), s.current, Write(s.ops[op], b, data));
    ReservedKept(g, s, LogWrite(op, b, data));
    hide Reserved;
    LogWriteConsistent(g, s, Before(g, init, s), After(g, init, s), op, b, data);
  }

  lemma EndConsistent(g: Geometry, s: Sys, before: Image, after: Image, op: int)
    requires Consistent(g, s, before, after) && Reserved(s) && Outstanding(s, op)
    ensures var s' := DoEnd(s, op);
      if |s.used| > 1 || s.lh != [] then Consistent(g, s', before, after)
      else after == before && Consistent(g, s', after, after)
  {
    hide HeaderOf;
    hide SameHome;
    hide LogList;
  }

  lemma EndKeepsInv(g: Geometry, init: Image, s: Sys, op: int)
    requires Inv(g, init, s) && Enabled(g, s, End(op))
    ensures Inv(g, init, Step(g, s, End(op)))
  {
    hide Apply;
    hide ApplyAll;
    hide Consistent;
    hide Shape;
    ReservedKept(g, s, End(op));
    hide Reserved;
    ApplyAllSnoc(g, init, s.kept, s.current);
    EndConsistent(g, s, Before(g, init, s), After(g, init, s), op);
    ApplyNothing(Before(g, init, Step(g, s, End(op))));
  }

  lemma ApplyNothing(d: Image)
    ensures Apply(d, []) == d
  {
  }

  lemma LoggingConsistent(g: Geometry, s: Sys, before: Image, after: Image)
    requires Consistent(g, s, before, after) && s.phase.Logging?
    ensures Consistent(g, DoDiskWrite(g, s), before, after)
  {
  }

  /** One more block brought home. */
  lemma InstallLogged(g: Geometry, d: Image, lh: seq<int>, i: nat, e: Image)
    requires IsDisk(g, d) && |e| == g.len && LogList(g, lh) && i < |lh| && Logged(g, d, lh, i, e)
    ensures var d' := d[lh[i] := d[g.start + 1 + i]]; IsDisk(g, d') && Logged(g, d', lh, i + 1, e)
  {
    hide HeaderOf;
    assert lh[i..] == [lh[i]] + lh[i + 1..];
  }

  lemma InstallConsistent(g: Geometry, s: Sys, before: Image, after: Image)
    requires Consistent(g, s, before, after) && s.phase.Installing? && s.phase.i < |s.lh|
    ensures Consistent(g, DoDiskWrite(g, s), before, after)
  {
    hide HeaderOf, PutHeader, Logged, Unlogged;
    InstallLogged(g, s.disk, s.lh, s.phase.i, after);
  }

  lemma ClearConsistent(g: Geometry, s: Sys, before: Image, after: Image)
    requires Consistent(g, s, before, after) && s.phase.Installing? && s.phase.i >= |s.lh|
    ensures Consistent(g, DoDiskWrite(g, s), after, after)
  {
    hide HeaderOf;
    hide PutHeader;
    assert s.lh[s.phase.i..] == [];
    forall k | k in s.lh ensures k !in s.pinned {
      var j :| 0 <= j < |s.lh| && s.lh[j] == k;
    }
  }

  lemma RecoveringConsistent(g: Geometry, s: Sys, before: Image)
    requires Consistent(g, s, before, before) && s.phase.Recovering?
    ensures Consistent(g, DoDiskWrite(g, s), before, before)
  {
    if s.phase.i < |s.phase.lh| {
      RecoveringInstalls(g, s, before);
    } else {
      hide HeaderOf;
      hide PutHeader;
    }
  }

  lemma RecoveringInstalls(g: Geometry, s: Sys, before: Image)
    requires Consistent(g, s, before, before) && s.phase.Recovering? && s.phase.i < |s.phase.lh|
    ensures Consistent(g, DoDiskWrite(g, s), before, before)
  {
    hide HeaderOf, PutHeader, Logged, Unlogged;
    InstallLogged(g, s.disk, s.phase.lh, s.phase.i, before);
  }

  lemma DiskWriteKeepsInv(g: Geometry, init: Image, s: Sys)
    requires Inv(g, init, s) && Enabled(g, s, DiskWrite)
    ensures Inv(g, init, Step(g, s, DiskWrite))
  {
    hide Apply;
    hide ApplyAll;
    hide Consistent;
    hide Shape;
    var before, after := Before(g, init, s), After(g, init, s);
    ApplyAllSnoc(g, init, s.kept, s.current);
    ApplyNothing(before);
    ApplyNothing(after);
    match s.phase {
      case Logging(_) => LoggingConsistent(g, s, before, after);
      case Installing(i) =>
        if i < |s.lh| { InstallConsistent(g, s, before, after); } else { ClearConsistent(g, s, before, after); }
      case Recovering(_, _) => RecoveringConsistent(g, s, before);
    }
  }

  lemma CrashConsistent(g: Geometry, s: Sys, before: Image, after: Image)
    requires Consistent(g, s, before, after)
    ensures var e := if s.phase.Installing? then after else before;
      LogList(g, HeaderOf(s.disk[g.start])) && Consistent(g, DoCrash(g, s), e, e)
  {
    hide HeaderOf;
  }

  lemma CrashKeepsInv(g: Geometry, init: Image, s: Sys)
    requires Inv(g, init, s)
    ensures Inv(g, init, Step(g, s, Crash))
  {
    hide Apply;
    hide ApplyAll;
    hide Consistent;
    hide Shape;
    var before, after := Before(g, init, s), After(g, init, s);
    ApplyAllSnoc(g, init, s.kept, s.current);
    ApplyNothing(before);
    ApplyNothing(after);
    CrashConsistent(g, s, before, after);
  }

  lemma StepKeepsInv(g: Geometry, init: Image, s: Sys, e: Event)
    requires Inv(g, init, s) && Enabled(g, s, e)
    ensures Inv(g, init, Step(g, s, e))
  {
    hide Inv;
    match e {
      case Begin => BeginKeepsInv(g, init, s);
      case LogWrite(op, b, data) => LogWriteKeepsInv(g, init, s, op, b, data);
      case End(op) => EndKeepsInv(g, init, s, op);
      case DiskWrite => DiskWriteKeepsInv(g, init, s);
      case Crash => CrashKeepsInv(g, init, s);
    }
  }
}
