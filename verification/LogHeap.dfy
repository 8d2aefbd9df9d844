/** log.c as it is written, over the buffer cache of CacheHeap: begin_op, log_write, end_op with
    its commit, and recovery, as methods that update the in-memory header and the cache in place.
    The ghost field `sys` is the state of LogMachine that they represent and `trace` the images
    the disk has had; commit and recovery are proved to make exactly the block writes of the
    machine. */
module LogHeap {
  import opened LogDisk
  import opened LogMachine
  import opened LogCommit
  import C = CacheModel
  import O = CacheOps
  import R = CacheRuns
  import T = LogTheorems
  import opened CacheHeap

  function Dev(b: int): C.Key {
    C.Key(1, b)
  }

  /** The device under the cache holds this image. */
  ghost predicate DiskIs(disk: map<C.Key, Block>, d: Image) {
    forall b :: 0 <= b < |d| ==> Dev(b) in disk && disk[Dev(b)] == d[b]
  }

  /** The dirty buffers are the pinned ones and show their contents. */
  ghost predicate Pins(c: C.Cache, s: Sys)
    requires C.Sized(c) && DiskIs(c.disk, s.disk)
  {
    && (forall b :: b in s.pinned ==> 0 <= b < |s.disk| && O.IsDirty(c, Dev(b)) && C.View(c, Dev(b)) == s.pinned[b])
    && (forall k: C.Key :: k.dev != 0 && O.IsDirty(c, k) ==> k == Dev(k.blockno) && k.blockno in s.pinned)
  }

  /** The cache represents the disk and the pinned blocks of s.  Others may hold buffers and wait for
      them, as long as they do not alter them. */
  ghost predicate Couples(c: C.Cache, s: Sys)
    ensures Couples(c, s) ==> C.Sized(c)
  {
    C.Inv(c) && O.Still(c) && DiskIs(c.disk, s.disk) && Pins(c, s)
  }

  /** Nobody has a block of the log or a listed block locked: commit does not have to wait. */
  ghost predicate LogFree(g: Geometry, c: C.Cache, lh: seq<int>)
    requires C.Sized(c)
  {
    && (forall x {:trigger Dev(x)} :: g.start <= x < g.start + g.size ==> O.Unlocked(c, Dev(x)))
    && (forall x {:trigger Dev(x)} :: x in lh ==> O.Unlocked(c, Dev(x)))
  }

  lemma StillFree(g: Geometry, c: C.Cache, c': C.Cache, lh: seq<int>)
    requires C.Inv(c) && C.Sized(c') && O.Holding(c, c', {}) && LogFree(g, c, lh)
    ensures LogFree(g, c', lh)
  {
    forall key | O.Unlocked(c, key) ensures O.Unlocked(c', key) {
      forall b | 0 <= b < C.NBUF && c'.bufs[b].key == key ensures !c'.bufs[b].locked {
        assert C.Sound(c.bufs[b], c.disk);
      }
    }
  }

  lemma QuietIsFree(g: Geometry, c: C.Cache, lh: seq<int>)
    requires C.Inv(c) && O.Quiet(c)
    ensures LogFree(g, c, lh)
  {
    forall b | 0 <= b < C.NBUF ensures !c.bufs[b].locked { assert C.Sound(c.bufs[b], c.disk); }
  }

  lemma HoldingTwice(c: C.Cache, c1: C.Cache, c2: C.Cache)
    requires C.Sized(c) && C.Sized(c1) && C.Sized(c2) && O.Holding(c, c1, {}) && O.Holding(c1, c2, {})
    ensures O.Holding(c, c2, {})
  {
  }

  /** What log.lh lists: the current transaction, or after a crash what the header named. */
  function Listed(s: Sys): seq<int> {
    if s.phase.Recovering? then s.phase.lh else s.lh
  }

  lemma LogBlockIsHomeless(g: Geometry, s: Sys, i: int)
    requires Shape(g, s) && 0 <= i < |Listed(s)|
    ensures 0 <= g.start + 1 + i < g.len && g.start + 1 + i !in s.pinned && 0 <= Listed(s)[i] < g.len && Listed(s)[i] != g.start + 1 + i
  {
  }

  /** Copying a pinned block to its place in the log is the machine's next write. */
  lemma CopyToLogCouples(g: Geometry, c: C.Cache, c': C.Cache, s: Sys)
    requires Shape(g, s) && Couples(c, s) && s.phase.Logging? && s.phase.i < |s.lh|
    requires Dev(g.start + 1 + s.phase.i) in c.disk && Dev(s.lh[s.phase.i]) in c.disk && C.Sized(c')
    requires O.Copied(c, c', Dev(g.start + 1 + s.phase.i), Dev(s.lh[s.phase.i]))
    ensures Couples(c', DoDiskWrite(g, s))
  {
    hide C.View;
    hide O.IsDirty;
    hide C.Inv;
    LogBlockIsHomeless(g, s, s.phase.i);
  }

  /** Copying a log block home is the machine's next write. */
  lemma CopyHomeCouples(g: Geometry, c: C.Cache, c': C.Cache, s: Sys)
    requires Shape(g, s) && Couples(c, s) && (s.phase.Installing? || s.phase.Recovering?) && s.phase.i < |Listed(s)|
    requires Dev(g.start + 1 + s.phase.i) in c.disk && Dev(Listed(s)[s.phase.i]) in c.disk && C.Sized(c')
    requires O.Copied(c, c', Dev(Listed(s)[s.phase.i]), Dev(g.start + 1 + s.phase.i))
    requires s.phase.Recovering? ==> s.pinned == map[]
    ensures Couples(c', DoDiskWrite(g, s))
  {
    hide C.View, O.IsDirty, C.Inv, Shape, DoDiskWrite, O.Holding, O.NoNewDirt, O.Still, HeaderOf;
    LogBlockIsHomeless(g, s, s.phase.i);
    O.CleanView(c, Dev(g.start + 1 + s.phase.i));
    NextInstall(g, s);
  }

  lemma NextInstall(g: Geometry, s: Sys)
    requires Shape(g, s) && (s.phase.Installing? || s.phase.Recovering?) && s.phase.i < |Listed(s)|
    requires s.phase.Recovering? ==> s.pinned == map[]
    ensures var x, s' := Listed(s)[s.phase.i], DoDiskWrite(g, s);
      0 <= x < |s.disk| && 0 <= g.start + 1 + s.phase.i < |s.disk| && |s.disk| == g.len
      && s'.disk == s.disk[x := s.disk[g.start + 1 + s.phase.i]] && s'.pinned == s.pinned - {x}
  {
  }

  /** Writing the header is the machine's next write. */
  lemma HeaderCouples(g: Geometry, c: C.Cache, c': C.Cache, s: Sys, h: Block)
    requires Shape(g, s) && Couples(c, s) && Busy(s) && C.Inv(c') && O.Still(c')
    requires DoDiskWrite(g, s).disk == s.disk[g.start := h] && DoDiskWrite(g, s).pinned == s.pinned
    requires Dev(g.start) in c.disk && O.Rewritten(c, c', Dev(g.start), h, false)
    ensures Couples(c', DoDiskWrite(g, s))
  {
    hide C.View;
    hide O.IsDirty;
    hide C.Inv;
    hide DoDiskWrite;
  }

  /** A disk with one device, number 1. */
  function DeviceOf(d: Image): map<C.Key, Block> {
    map b | 0 <= b < |d| :: Dev(b) := d[b]
  }

  lemma BootCouples(d: Image, c: C.Cache, s: Sys)
    requires d != [] && c == R.Booted(DeviceOf(d), d[0]) && s.disk == d && s.pinned == map[]
    ensures Couples(c, s) && O.SomeReusable(c) && O.Quiet(c)
  {
    R.BootedInv(DeviceOf(d), d[0]);
    hide C.View;
    hide C.Inv;
    assert C.Reusable(c.bufs[0]);
  }

  class Log {
    const cache: BCache
    const g: Geometry
    const block: array<int>
    var n: int
    var outstanding: int
    var committing: bool
    ghost var sys: Sys
    ghost var trace: seq<Image>

    ghost predicate Coupled()
      reads this, block, cache, cache.buf, cache.next, cache.prev
      ensures Coupled() ==> cache.Valid() && Shape(g, sys)
    {
      && block.Length == LOGSIZE && block != cache.next && block != cache.prev
      && cache.Valid() && Shape(g, sys) && Couples(cache.C(), sys)
      && |cache.images| == |trace| && (forall k :: 0 <= k < |trace| ==> DiskIs(cache.images[k], trace[k]))
    }

    /** What commit and recovery need of the cache: a buffer to reuse, nobody who has locked a block
        they touch, and at boot nobody at all. */
    ghost predicate Ready()
      reads this, block, cache, cache.buf, cache.next, cache.prev
    {
      && Coupled() && O.SomeReusable(cache.C()) && LogFree(g, cache.C(), Listed(sys))
      && (sys.phase.Recovering? ==> O.Quiet(cache.C()))
    }

    /** log.lh lists what the machine's state lists. */
    ghost predicate Lists()
      reads this, block
    {
      0 <= n <= LOGSIZE == block.Length && block[..n] == Listed(sys)
    }

    ghost predicate Valid()
      reads this, block, cache, cache.buf, cache.next, cache.prev
    {
      && Coupled() && Lists() && Reserved(sys)
      && outstanding == |sys.used| && (committing <==> sys.phase.Logging? || sys.phase.Installing?)
    }

    /** A machine that has just been started on this disk: nothing is cached. */
    constructor (g: Geometry, d: Image)
      requires IsDisk(g, d) && LogList(g, HeaderOf(d[g.start]))
      ensures Coupled() && this.g == g && sys == T.Booted(g, d) && trace == [] && outstanding == 0 && !committing
      ensures Ready() && O.Quiet(cache.C())
    {
      cache := new BCache(DeviceOf(d), d[0]);
      this.g := g;
      block := new int[LOGSIZE];
      n, outstanding, committing := 0, 0, false;
      sys, trace := T.Booted(g, d), [];
      new;
      BootCouples(d, cache.C(), T.Booted(g, d));
      QuietIsFree(g, cache.C(), Listed(T.Booted(g, d)));
    }

    /** The ghost step that goes with a block write. */
    ghost method Advance()
      requires Shape(g, sys) && Busy(sys) && cache.Valid() && block.Length == LOGSIZE && block != cache.next && block != cache.prev
      requires Couples(cache.C(), DoDiskWrite(g, sys))
      requires |cache.images| == |trace| + 1 && cache.images[|trace|] == cache.disk
      requires forall k :: 0 <= k < |trace| ==> DiskIs(cache.images[k], trace[k])
      modifies this`sys, this`trace
      ensures Coupled() && sys == DoDiskWrite(g, old(sys)) && trace == old(trace) + [sys.disk]
    {
      hide Couples;
      hide Shape;
      DiskWriteShape(g, sys);
      CouplesDisk(cache.C(), DoDiskWrite(g, sys));
      sys := DoDiskWrite(g, sys);
      trace := trace + [sys.disk];
    }

    /** One turn of write_log's loop. */
    method WriteLogBlock(tail: int)
      requires Ready() && Lists() && 0 <= tail < n && sys.phase == Logging(tail)
      modifies this`sys, this`trace, cache, cache.buf, cache.next, cache.prev
      ensures Ready() && sys == DoDiskWrite(g, old(sys)) && trace == old(trace) + [sys.disk]
      ensures O.Holding(old(cache.C()), cache.C(), {})
    {
      hide DoDiskWrite;
      hide Shape;
      hide Couples;
      hide C.Inv;
      hide O.Still;
      hide O.Holding;
      hide LogFree;
      hide O.Copied;
      hide O.SameDirty;
      hide C.SameView;
      hide C.Chosen;
      hide C.Get;
      hide O.Read;
      var k1, k2 := Dev(g.start + 1 + tail), Dev(block[tail]);
      PinnedWhileLogging(g, sys, tail);
      LogReads(g, cache.C(), sys, tail);
      var to, from := cache.ReadBoth(k1, k2);
      cache.CopyHeld(to, from, old(cache.C()));
      CopyToLogCouples(g, old(cache.C()), cache.C(), sys);
      CopiedKeepsReady(g, old(cache.C()), cache.C(), k1, k2, Listed(sys));
      NextWrite(g, sys);
      Advance();
    }

    /** One turn of install_trans's loop. */
    method InstallBlock(tail: int)
      requires Ready() && Lists() && 0 <= tail < n
      requires sys.phase == Installing(tail) || (sys.phase == Recovering(Listed(sys), tail) && sys.pinned == map[])
      requires sys.phase.Installing? ==> Listed(sys)[tail] in sys.pinned
      modifies this`sys, this`trace, cache, cache.buf, cache.next, cache.prev
      ensures Ready() && sys == DoDiskWrite(g, old(sys)) && trace == old(trace) + [sys.disk]
      ensures O.Holding(old(cache.C()), cache.C(), {})
    {
      hide DoDiskWrite;
      hide Shape;
      hide Couples;
      hide C.Inv;
      hide O.Still;
      hide O.Holding;
      hide LogFree;
      hide O.Copied;
      hide O.SameDirty;
      hide C.SameView;
      hide C.Chosen;
      hide C.Get;
      hide O.Read;
      LogReads(g, cache.C(), sys, tail);
      var lbuf, dbuf := cache.ReadBoth(Dev(g.start + 1 + tail), Dev(block[tail]));
      cache.CopyHeld(dbuf, lbuf, old(cache.C()));
      CopyHomeCouples(g, old(cache.C()), cache.C(), sys);
      CopiedKeepsReady(g, old(cache.C()), cache.C(), Dev(block[tail]), Dev(g.start + 1 + tail), Listed(sys));
      NextWrite(g, sys);
      Advance();
    }

    /** write_head: n and the first n entries go into the header block. */
    method WriteHead()
      requires Ready() && 0 <= n <= LOGSIZE
      requires (sys.phase == Logging(|sys.lh|) && block[..n] == sys.lh)
        || (n == 0 && (sys.phase == Installing(|sys.lh|) || sys.phase == Recovering(Listed(sys), |Listed(sys)|)))
      modifies this`sys, this`trace, cache, cache.buf, cache.next, cache.prev
      ensures Ready() && sys == DoDiskWrite(g, old(sys)) && trace == old(trace) + [sys.disk]
      ensures O.Holding(old(cache.C()), cache.C(), {})
    {
      hide DoDiskWrite;
      hide Shape;
      hide Couples;
      hide C.Inv;
      hide O.Still;
      hide O.Holding;
      hide LogFree;
      hide O.Copied;
      hide O.SameDirty;
      hide C.SameView;
      hide C.Chosen;
      hide C.Get;
      hide O.Read;
      hide PutHeader;
      hide C.View;
      hide C.Release;
      hide C.BWrite;
      hide C.Modify;
      hide DiskIs;
      ghost var c := cache.C();
      var key := Dev(g.start);
      HeaderReads(g, c, sys);
      ghost var h := PutHeader(sys.disk[g.start], block[..n]);
      O.RewriteOne(c, key, h, false);
      hide O.Rewritten;
      var b := cache.BRead(key);
      var data := EncodeHeader(cache.buf[b].data);
      cache.WriteAndRelease(b, data);
      HeaderIsNext(g, sys, block[..n]);
      HeaderCouples(g, c, cache.C(), sys, h);
      NextWrite(g, sys);
      HeaderKeepsReady(g, c, cache.C(), h, Listed(sys), Listed(DoDiskWrite(g, sys)));
      Advance();
    }

    /** The loop of write_head. */
    method EncodeHeader(data: Block) returns (r: Block)
      requires 0 <= n <= LOGSIZE == block.Length
      ensures r == PutHeader(data, block[..n])
    {
      r := data[0 := n];
      var i := 0;
      while i < n
        invariant 0 <= i <= n
        invariant r == [n] + block[..i] + data[1 + i..]
      {
        r := r[1 + i := block[i]];
        i := i + 1;
      }
    }

    method WriteLog()
      requires Ready() && Lists() && sys.phase == Logging(0)
      modifies this`sys, this`trace, cache, cache.buf, cache.next, cache.prev
      ensures Ready() && Lists() && sys.phase == Logging(n) && O.Holding(old(cache.C()), cache.C(), {})
      ensures OnTheWay(g, old(sys), old(trace), sys, trace)
    {
      hide Couples;
      hide Shape;
      hide OnTheWay;
      StartsOnTheWay(g, sys, trace);
      HoldingNothing(cache.C());
      hide O.Holding, LogFree;
      var tail := 0;
      while tail < n
        invariant 0 <= tail <= n && Ready() && Lists() && sys.phase == Logging(tail)
        invariant O.Holding(old(cache.C()), cache.C(), {})
        invariant OnTheWay(g, old(sys), old(trace), sys, trace)
      {
        StillOnTheWay(g, old(sys), old(trace), sys, trace);
        NextWrite(g, sys);
        ghost var c1 := cache.C();
        WriteLogBlock(tail);
        HoldingTwice(old(cache.C()), c1, cache.C());
        tail := tail + 1;
      }
    }

    method InstallTrans()
      requires Ready() && Lists()
      requires sys.phase == Installing(0) || (sys.phase == Recovering(Listed(sys), 0) && sys.pinned == map[])
      modifies this`sys, this`trace, cache, cache.buf, cache.next, cache.prev
      ensures Ready() && Lists() && O.Holding(old(cache.C()), cache.C(), {})
      ensures sys.phase == if old(sys.phase).Installing? then Installing(n) else Recovering(Listed(sys), n)
      ensures sys.lh == old(sys.lh)
      ensures OnTheWay(g, old(sys), old(trace), sys, trace)
    {
      hide Couples;
      hide Shape;
      hide OnTheWay;
      StartsOnTheWay(g, sys, trace);
      HoldingNothing(cache.C());
      hide O.Holding, LogFree;
      var tail := 0;
      while tail < n
        invariant 0 <= tail <= n && Ready() && Lists() && O.Holding(old(cache.C()), cache.C(), {})
        invariant sys.phase == if old(sys.phase).Installing? then Installing(tail) else Recovering(Listed(sys), tail)
        invariant sys.lh == old(sys.lh) && (sys.phase.Recovering? ==> sys.pinned == map[])
        invariant OnTheWay(g, old(sys), old(trace), sys, trace)
      {
        StillOnTheWay(g, old(sys), old(trace), sys, trace);
        NextWrite(g, sys);
        ghost var c1 := cache.C();
        InstallBlock(tail);
        HoldingTwice(old(cache.C()), c1, cache.C());
        tail := tail + 1;
      }
    }

    /** commit: the disk goes through the machine's images, up to the erased header. */
    method Commit()
      requires Ready() && Lists() && sys.phase == Logging(0)
      modifies this, cache, cache.buf, cache.next, cache.prev
      ensures Ready() && Lists() && outstanding == old(outstanding) && committing == old(committing)
      ensures O.Holding(old(cache.C()), cache.C(), {})
      ensures sys == Settle(g, old(sys)) && trace == old(trace) + Trace(g, old(sys))
    {
      hide Couples;
      hide Shape;
      hide OnTheWay;
      hide O.Holding, LogFree;
      WriteLog();
      StillOnTheWay(g, old(sys), old(trace), sys, trace);
      NextWrite(g, sys);
      ghost var c1 := cache.C();
      WriteHead();
      ghost var c2 := cache.C();
      InstallThenClear(old(sys), old(trace));
      HoldingTwice(old(cache.C()), c1, c2);
      HoldingTwice(old(cache.C()), c2, cache.C());
    }

    /** The second half of commit, and recovery after read_head. */
    method InstallThenClear(ghost s: Sys, ghost t: seq<Image>)
      requires Ready() && Lists()
      requires sys.phase == Installing(0) || (sys.phase == Recovering(Listed(sys), 0) && sys.pinned == map[] && sys.lh == [])
      requires OnTheWay(g, s, t, sys, trace)
      modifies this`n, this`sys, this`trace, cache, cache.buf, cache.next, cache.prev
      ensures Ready() && Lists() && sys == Settle(g, s) && trace == t + Trace(g, s)
      ensures O.Holding(old(cache.C()), cache.C(), {})
    {
      hide Couples;
      hide Shape;
      hide OnTheWay;
      hide O.Holding, LogFree;
      ghost var s1, t1 := sys, trace;
      InstallTrans();
      WayComposes(g, s, t, s1, t1, sys, trace);
      StillOnTheWay(g, s, t, sys, trace);
      NextWrite(g, sys);
      n := 0;
      ghost var c1 := cache.C();
      WriteHead();
      HoldingTwice(old(cache.C()), c1, cache.C());
      WayEnds(g, s, t, sys, trace);
    }

    // ----- initlog, begin_op, log_write, end_op

    /** recover_from_log after a crash. */
    method RecoverFromLog()
      requires Ready() && outstanding == 0 && !committing
      requires sys.phase == Recovering(HeaderOf(sys.disk[g.start]), 0) && sys.pinned == map[] && sys.used == [] && Reserved(sys)
      requires 0 <= sys.disk[g.start][0] <= LOGSIZE
      modifies this, block, cache, cache.buf, cache.next, cache.prev
      ensures Valid() && Ready() && O.Quiet(cache.C()) && sys == Settle(g, old(sys)) && trace == old(trace) + Trace(g, old(sys))
      ensures LogList(g, HeaderOf(old(sys.disk)[g.start])) && sys.disk == Recover(g, old(sys.disk))
    {
      hide Couples;
      hide Shape;
      hide OnTheWay;
      hide HeaderOf;
      hide LogFree;
      ReadHead();
      StartsOnTheWay(g, sys, trace);
      InstallThenClear(sys, trace);
      SettleKeeps(g, old(sys));
      RecoverySettles(g, old(sys));
    }

    /** bread and brelse of the header block. */
    method ReadHeader() returns (data: Block)
      requires Ready() && sys.phase.Recovering?
      modifies cache, cache.buf, cache.next, cache.prev
      ensures Ready() && data == sys.disk[g.start]
    {
      hide Couples, Shape, C.Inv, C.Chosen, C.Get, O.Read, C.Release, C.View, O.Holding, O.Unlocked, LogFree, O.Quiet;
      ghost var c := cache.C();
      HeaderReads(g, c, sys);
      ReadOnly(c, Dev(g.start), sys);
      var b := cache.BRead(Dev(g.start));
      data := cache.buf[b].data;
      cache.BRelse(b);
      KeepsReady(g, c, cache.C(), Listed(sys));
    }

    /** read_head. */
    method ReadHead()
      requires Ready()
      requires sys.phase == Recovering(HeaderOf(sys.disk[g.start]), 0) && 0 <= sys.disk[g.start][0] <= LOGSIZE
      modifies this`n, block, cache, cache.buf, cache.next, cache.prev
      ensures Ready() && Lists()
    {
      hide Couples, Shape, C.Inv, LogFree, O.Quiet;
      var data := ReadHeader();
      n := data[0];
      var i := 0;
      while i < n
        invariant 0 <= i <= n <= LOGSIZE && n == data[0]
        invariant block[..i] == data[1..1 + i]
        invariant Ready()
      {
        block[i] := data[1 + i];
        i := i + 1;
      }
    }

    /** One pass of begin_op's loop: admit the operation or tell it to sleep. */
    method BeginOp() returns (admitted: bool)
      requires Valid() && !sys.phase.Recovering?
      modifies this`outstanding, this`sys
      ensures Valid()
      ensures admitted <==> !old(committing) && old(n) + 10 * old(outstanding) + 10 <= 30
      ensures outstanding == old(outstanding) + if admitted then 1 else 0
      ensures Enabled(g, old(sys), Begin) <==> admitted
      ensures sys == if admitted then Step(g, old(sys), Begin) else old(sys)
    {
      hide Couples;
      if committing {
        return false;
      } else if n + (outstanding + 1) * MAXOPBLOCKS > LOGSIZE {
        return false;
      }
      ReservedKept(g, sys, Begin);
      SameStorage(cache.C(), sys, Step(g, sys, Begin));
      sys := Step(g, sys, Begin);
      outstanding := outstanding + 1;
      return true;
    }

    /** The list part of log_write: absorb a block that is there, else append it. */
    method Absorb(b: int)
      requires 0 <= n < LOGSIZE == block.Length
      modifies this`n, block
      ensures 0 <= n <= LOGSIZE
      ensures var lh := old(block[..n]); block[..n] == if b in lh then lh else lh + [b]
    {
      var i := 0;
      while i < n && block[i] != b
        invariant 0 <= i <= n && b !in block[..i]
      {
        i := i + 1;
      }
      block[i] := b;
      if i == n {
        n := n + 1;
      }
    }

    /** bread of block b, a change to it, log_write, brelse. */
    method Rewrite(b: int, data: Block)
      requires cache.Valid() && C.Inv(cache.C()) && O.Still(cache.C()) && O.Unlocked(cache.C(), Dev(b)) && Dev(b) in cache.disk
      requires C.Chosen(cache.C(), Dev(b)) >= 0 && 0 <= n < LOGSIZE == block.Length && block != cache.next && block != cache.prev
      modifies this`n, block, cache, cache.buf, cache.next, cache.prev
      ensures cache.Valid() && Dev(b) in old(cache.disk) && O.Rewritten(old(cache.C()), cache.C(), Dev(b), data, true)
      ensures cache.images == old(cache.images)
      ensures 0 <= n <= LOGSIZE
      ensures var lh := old(block[..n]); block[..n] == if b in lh then lh else lh + [b]
    {
      O.RewriteOne(cache.C(), Dev(b), data, true);
      hide O.Rewritten, C.Chosen, C.Get, O.Read, C.Release, C.Inv, C.View, O.Unlocked, O.Still;
      var i := cache.BRead(Dev(b));
      Absorb(b);
      cache.PinAndRelease(i, data);
    }

    /** A block update inside operation op: bread, change, log_write, brelse. */
    method Update(ghost op: int, b: int, data: Block)
      requires Valid() && Enabled(g, sys, LogWrite(op, b, data)) && C.Chosen(cache.C(), Dev(b)) >= 0
      requires O.Unlocked(cache.C(), Dev(b))
      modifies this`n, this`sys, block, cache, cache.buf, cache.next, cache.prev
      ensures Valid() && sys == Step(g, old(sys), LogWrite(op, b, data)) && trace == old(trace)
      ensures O.Holding(old(cache.C()), cache.C(), {})
    {
      hide Couples, C.Chosen, C.Inv, O.Unlocked, O.Still, O.Rewritten, O.Holding;
      ghost var c, s := cache.C(), sys;
      UpdateReads(g, c, s, b);
      ReservedKept(g, s, LogWrite(op, b, data));
      Rewrite(b, data);
      sys := DoLogWrite(sys, op, b, data);
      UpdateCouples(g, c, cache.C(), s, op, b, data);
      RewrittenHolds(c, cache.C(), Dev(b), data, true);
    }

    /** The part of end_op that commits. */
    method CommitAll()
      requires Ready() && Lists() && Reserved(sys) && outstanding == 0 == |sys.used|
      requires sys.phase == if n > 0 then Logging(0) else Open
      modifies this, cache, cache.buf, cache.next, cache.prev
      ensures Valid() && sys == Settle(g, old(sys)) && trace == old(trace) + Trace(g, old(sys)) && outstanding == 0
      ensures O.Holding(old(cache.C()), cache.C(), {})
    {
      hide Couples, Shape, LogFree, O.Holding, Reserved;
      HoldingNothing(cache.C());
      SettleKeeps(g, sys);
      committing := true;
      if n > 0 {
        Commit();
      }
      committing := false;
    }

    /** end_op, with the commit if this was the last operation. */
    method EndOp(ghost op: int)
      requires Valid() && Outstanding(sys, op) && O.SomeReusable(cache.C()) && LogFree(g, cache.C(), sys.lh)
      modifies this, cache, cache.buf, cache.next, cache.prev
      ensures Valid() && Shape(g, DoEnd(old(sys), op)) && sys == Settle(g, DoEnd(old(sys), op))
      ensures trace == old(trace) + Trace(g, DoEnd(old(sys), op))
      ensures O.Holding(old(cache.C()), cache.C(), {})
      ensures outstanding == old(outstanding) - 1
      ensures old(outstanding) > 1 ==> n == old(n) && trace == old(trace) && sys.disk == old(sys.disk)
      ensures old(outstanding) == 1 ==> n == 0 && sys.kept == old(sys.kept) + [old(sys.current)] && Installed(g, old(sys), sys)
    {
      hide Couples, Shape, DoEnd, LogFree, O.Holding;
      HoldingNothing(cache.C());
      ReservedKept(g, sys, End(op));
      EndShape(g, sys, op);
      EndLeaves(g, sys, op);
      SameStorage(cache.C(), sys, DoEnd(sys, op));
      outstanding := outstanding - 1;
      sys := DoEnd(sys, op);
      if outstanding == 0 {
        CommitAll();
      }
    }
  }

  /** The disk has the pinned contents of the listed blocks and otherwise what it had, outside the log. */
  ghost predicate Installed(g: Geometry, s: Sys, s': Sys) {
    && |s'.disk| == |s.disk| == g.len
    && forall b :: Home(g, b) ==> s'.disk[b] == if b in s.pinned then s.pinned[b] else s.disk[b]
  }

  /** What end_op and the commit it may start leave. */
  lemma EndLeaves(g: Geometry, s: Sys, op: int)
    requires Shape(g, s) && Reserved(s) && Outstanding(s, op)
    ensures Shape(g, DoEnd(s, op))
    ensures var r := Settle(g, DoEnd(s, op));
      && (|s.used| > 1 ==> r.disk == s.disk && r.lh == s.lh && Trace(g, DoEnd(s, op)) == [])
      && (|s.used| == 1 ==> r.lh == [] && r.kept == s.kept + [s.current] && Installed(g, s, r))
  {
    EndShape(g, s, op);
    var s' := DoEnd(s, op);
    if s'.phase.Logging? { LoggingEnds(g, s'); }
    hide Settle, Trace;
  }

  lemma RecoverySettles(g: Geometry, s: Sys)
    requires Shape(g, s) && s.phase == Recovering(HeaderOf(s.disk[g.start]), 0)
    ensures LogList(g, HeaderOf(s.disk[g.start])) && Settle(g, s).disk == Recover(g, s.disk)
  {
    hide HeaderOf, PutHeader, Settle;
    RecoveringEnds(g, s);
  }

  lemma PinnedWhileLogging(g: Geometry, s: Sys, i: int)
    requires Shape(g, s) && s.phase.Logging? && 0 <= i < |s.lh|
    ensures s.lh[i] in s.pinned
  {
  }

  lemma CouplesDisk(c: C.Cache, s: Sys)
    requires Couples(c, s)
    ensures DiskIs(c.disk, s.disk)
  {
  }

  /** Both breads of a copying step find buffers. */
  lemma LogReads(g: Geometry, c: C.Cache, s: Sys, i: int)
    requires Shape(g, s) && Couples(c, s) && 0 <= i < |Listed(s)| && O.SomeReusable(c)
    requires Listed(s)[i] in s.pinned || s.pinned == map[]
    requires LogFree(g, c, Listed(s)) && (s.pinned == map[] && Listed(s)[i] !in s.pinned ==> O.Quiet(c))
    ensures C.Inv(c) && O.Still(c) && O.Unlocked(c, Dev(g.start + 1 + i)) && O.Unlocked(c, Dev(Listed(s)[i]))
    ensures var k1, k2 := Dev(g.start + 1 + i), Dev(Listed(s)[i]);
      && k1 != k2 && k1 in c.disk && k2 in c.disk
      && C.Chosen(c, k1) >= 0 && C.Get(c, k1).bufs[C.Chosen(c, k1)].key == k1
      && C.Chosen(O.Read(c, k1), k2) >= 0
  {
    LogBlockIsHomeless(g, s, i);
    var k1, k2 := Dev(g.start + 1 + i), Dev(Listed(s)[i]);
    assert g.start <= g.start + 1 + i < g.start + g.size;
    hide C.View, C.Chosen, C.Get, O.Read, Shape, O.Holding;
    O.ReusableIsEnough(c, k1);
    O.ReadOne(c, k1);
    var c1 := O.Read(c, k1);
    if Listed(s)[i] !in s.pinned { AnotherIsFree(c, c1, C.Chosen(c, k1), s); }
    hide C.Inv;
    O.ReusableIsEnough(c1, k2);
  }

  /** With nothing pinned and nobody else about, the second bread finds a buffer too. */
  lemma AnotherIsFree(c: C.Cache, c1: C.Cache, b1: int, s: Sys)
    requires Couples(c, s) && O.Quiet(c) && s.pinned == map[] && C.Index(b1)
    requires C.Sized(c1) && c1.bufs == c.bufs[b1 := c1.bufs[b1]]
    ensures O.SomeReusable(c1)
  {
    var b := if b1 == 0 then 1 else 0;
    assert C.Sound(c.bufs[b], c.disk) && c1.bufs[b] == c.bufs[b];
    assert c.bufs[b].dirty ==> O.IsDirty(c, c.bufs[b].key);
  }

  lemma HeaderReads(g: Geometry, c: C.Cache, s: Sys)
    requires Shape(g, s) && Couples(c, s) && O.SomeReusable(c) && LogFree(g, c, Listed(s))
    ensures var key := Dev(g.start);
      && 0 <= g.start < |s.disk| && !O.IsDirty(c, key) && C.Inv(c) && O.Still(c)
      && O.Unlocked(c, key) && key in c.disk && C.Chosen(c, key) >= 0 && C.View(c, key) == s.disk[g.start]
  {
    O.ReusableIsEnough(c, Dev(g.start));
    O.CleanView(c, Dev(g.start));
  }

  lemma HeaderIsNext(g: Geometry, s: Sys, lh: seq<int>)
    requires Shape(g, s) && |lh| <= LOGSIZE
    requires (s.phase == Logging(|s.lh|) && lh == s.lh)
      || (lh == [] && (s.phase == Installing(|s.lh|) || s.phase == Recovering(Listed(s), |Listed(s)|)))
    ensures var s' := DoDiskWrite(g, s); s'.disk == s.disk[g.start := PutHeader(s.disk[g.start], lh)] && s'.pinned == s.pinned
  {
  }

  lemma StartsOnTheWay(g: Geometry, s: Sys, t: seq<Image>)
    requires Shape(g, s)
    ensures OnTheWay(g, s, t, s, t)
  {
  }

  lemma WayComposes(g: Geometry, s: Sys, t: seq<Image>, s1: Sys, t1: seq<Image>, s2: Sys, t2: seq<Image>)
    requires OnTheWay(g, s, t, s1, t1) && OnTheWay(g, s1, t1, s2, t2)
    ensures OnTheWay(g, s, t, s2, t2)
  {
  }

  lemma WayEnds(g: Geometry, s: Sys, t: seq<Image>, s': Sys, t': seq<Image>)
    requires OnTheWay(g, s, t, s', t') && !Busy(s')
    ensures s' == Settle(g, s) && t' == t + Trace(g, s)
  {
    assert t' + [] == t';
  }

  /** Where the machine stands after its next write, and which block that write is about. */
  lemma NextWrite(g: Geometry, s: Sys)
    requires Shape(g, s) && Busy(s)
    ensures var s' := DoDiskWrite(g, s);
      match s.phase
      case Logging(i) =>
        s'.lh == s.lh && s'.phase == if i < |s.lh| then Logging(i + 1) else Installing(0)
      case Installing(i) =>
        if i < |s.lh| then s.lh[i] in s.pinned && s'.lh == s.lh && s'.phase == Installing(i + 1)
        else s'.lh == [] && s'.phase == Open
      case Recovering(lh, i) =>
        && s'.pinned == s.pinned && s'.lh == s.lh
        && s'.phase == if i < |lh| then Recovering(lh, i + 1) else Open
  {
  }

  /** bread and brelse alone change nothing that matters. */
  lemma ReadOnly(c: C.Cache, key: C.Key, s: Sys)
    requires Couples(c, s) && key in c.disk && key.dev != 0 && C.Chosen(c, key) >= 0 && O.Unlocked(c, key)
    ensures C.Get(c, key).bufs[C.Chosen(c, key)].key == key && !c.bufs[C.Chosen(c, key)].locked
    ensures var c1, b := O.Read(c, key), C.Chosen(c, key);
      && c1.bufs[b].locked && c1.bufs[b].data == C.View(c, key) && b in c1.ring
      && Couples(C.Release(c1, b), s) && O.Holding(c, C.Release(c1, b), {}) && O.NoNewDirt(c, C.Release(c1, b))
  {
    O.ReadOne(c, key);
    var c1, b := O.Read(c, key), C.Chosen(c, key);
    hide C.View, C.Inv, O.Read, C.Get, C.Chosen, O.IsDirty, C.Release;
    O.ReleaseHeld(c, c1, b, {b});
    assert {b} - {b} == {};
  }

  lemma HoldingNothing(c: C.Cache)
    requires C.Sized(c)
    ensures O.Holding(c, c, {})
  {
  }

  lemma KeepsReady(g: Geometry, c: C.Cache, c': C.Cache, lh: seq<int>)
    requires C.Inv(c) && C.Sized(c') && O.Holding(c, c', {}) && O.NoNewDirt(c, c') && O.SomeReusable(c) && LogFree(g, c, lh)
    ensures O.SomeReusable(c') && LogFree(g, c', lh) && (O.Quiet(c) ==> O.Quiet(c'))
  {
    hide C.Inv, LogFree;
    O.StillReusable(c, c');
    StillFree(g, c, c', lh);
  }

  lemma CopiedKeepsReady(g: Geometry, c: C.Cache, c': C.Cache, dst: C.Key, src: C.Key, lh: seq<int>)
    requires C.Inv(c) && C.Sized(c') && dst in c.disk && src in c.disk && O.Copied(c, c', dst, src)
    requires O.SomeReusable(c) && LogFree(g, c, lh)
    ensures O.SomeReusable(c') && LogFree(g, c', lh) && O.Holding(c, c', {}) && (O.Quiet(c) ==> O.Quiet(c'))
  {
    hide C.Inv, LogFree;
    KeepsReady(g, c, c', lh);
  }

  lemma HeaderKeepsReady(g: Geometry, c: C.Cache, c': C.Cache, h: Block, lh: seq<int>, next: seq<int>)
    requires C.Inv(c) && C.Sized(c') && Dev(g.start) in c.disk && O.Rewritten(c, c', Dev(g.start), h, false)
    requires O.SomeReusable(c) && LogFree(g, c, lh) && (next == lh || next == [] || O.Quiet(c))
    ensures O.SomeReusable(c') && LogFree(g, c', next) && O.Holding(c, c', {}) && (O.Quiet(c) ==> O.Quiet(c'))
  {
    hide C.Inv;
    KeepsReady(g, c, c', lh);
    if O.Quiet(c) { QuietIsFree(g, c', next); }
  }

  lemma RewrittenHolds(c: C.Cache, c': C.Cache, key: C.Key, data: Block, pin: bool)
    requires C.Sized(c) && C.Sized(c') && key in c.disk && O.Rewritten(c, c', key, data, pin)
    ensures O.Holding(c, c', {}) && C.Inv(c') && O.Still(c')
  {
  }

  lemma {:induction false} SettleKeeps(g: Geometry, s: Sys)
    requires Shape(g, s) && Reserved(s)
    ensures Reserved(Settle(g, s)) && Settle(g, s).used == s.used
    decreases WritesLeft(s)
  {
    if Busy(s) {
      DiskWriteShape(g, s);
      SettleKeeps(g, DoDiskWrite(g, s));
    }
  }

  lemma SameStorage(c: C.Cache, s: Sys, s': Sys)
    requires Couples(c, s) && s'.disk == s.disk && s'.pinned == s.pinned
    ensures Couples(c, s')
  {
  }

  lemma EndShape(g: Geometry, s: Sys, op: int)
    requires Shape(g, s) && Reserved(s) && Outstanding(s, op)
    ensures var s' := DoEnd(s, op);
      && Shape(g, s') && |s'.used| == |s.used| - 1 && s'.lh == s.lh && s'.disk == s.disk && s'.pinned == s.pinned
      && s'.phase == (if |s.used| == 1 && s.lh != [] then Logging(0) else Open) && s.phase == Open
      && (s'.phase.Open? ==> Settle(g, s') == s' && Trace(g, s') == [])
  {
  }

  lemma UpdateReads(g: Geometry, c: C.Cache, s: Sys, b: int)
    requires Shape(g, s) && Couples(c, s) && Home(g, b)
    ensures C.Inv(c) && O.Still(c) && Dev(b) in c.disk
  {
  }

  lemma UpdateCouples(g: Geometry, c: C.Cache, c': C.Cache, s: Sys, op: int, b: int, data: Block)
    requires Shape(g, s) && Reserved(s) && Couples(c, s) && Enabled(g, s, LogWrite(op, b, data))
    requires C.Sized(c') && Dev(b) in c.disk && O.Rewritten(c, c', Dev(b), data, true)
    ensures var s' := DoLogWrite(s, op, b, data); Shape(g, s') && Couples(c', s')
  {
    hide C.View;
    hide O.IsDirty;
    hide C.Inv;
    hide Spare;
    var s' := DoLogWrite(s, op, b, data);
    assert forall k :: k in s'.lh <==> k == b || k in s.lh;
  }
}
