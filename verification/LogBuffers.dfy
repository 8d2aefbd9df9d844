/** Whether commit finds a buffer for its log blocks: the cache and the log compete for the same
    NBUF buffers. */
module LogBuffers {
  import opened LogDisk
  import opened LogMachine
  import opened LogHeap
  import opened LogSpace
  import C = CacheModel
  import O = CacheOps
  import T = LogTheorems

  /** The blocks in the dirty ones of the first n buffers. */
  function DirtyBlocks(bufs: seq<C.Buf>, n: nat): (r: seq<int>)
    requires n <= |bufs|
    ensures |r| <= n
    ensures |r| == n <==> forall b :: 0 <= b < n ==> bufs[b].dirty
    ensures forall x :: x in r ==> exists b :: 0 <= b < n && bufs[b].dirty && bufs[b].key.blockno == x
    ensures forall b :: 0 <= b < n && bufs[b].dirty ==> bufs[b].key.blockno in r
    decreases bufs, n
  {
    if n == 0 then [] else DirtyBlocks(bufs, n - 1) + if bufs[n - 1].dirty then [bufs[n - 1].key.blockno] else []
  }

  ghost predicate Distinct(q: seq<int>) {
    forall i, j :: 0 <= i < j < |q| ==> q[i] != q[j]
  }

  function Elements(q: seq<int>): (s: set<int>)
    ensures forall x :: x in s <==> x in q
  {
    if q == [] then {} else
      var n := |q| - 1;
      assert q == q[..n] + [q[n]];
      Elements(q[..n]) + {q[n]}
  }

  lemma {:induction false} SizeOfDistinct(q: seq<int>)
    requires Distinct(q)
    ensures |Elements(q)| == |q|
  {
    if q != [] {
      SizeOfDistinct(q[..|q| - 1]);
    }
  }

  lemma {:induction false} DirtyBlocksDistinct(c: C.Cache, s: Sys, n: nat)
    requires Couples(c, s) && n <= C.NBUF
    ensures Distinct(DirtyBlocks(c.bufs, n))
  {
    hide Couples;
    if n > 0 {
      DirtyBlocksDistinct(c, s, n - 1);
      var q := DirtyBlocks(c.bufs, n - 1);
      if c.bufs[n - 1].dirty && c.bufs[n - 1].key.blockno in q {
        var b :| 0 <= b < n - 1 && c.bufs[b].dirty && c.bufs[b].key.blockno == c.bufs[n - 1].key.blockno;
        DirtyIsPinned(c, s, b);
        DirtyIsPinned(c, s, n - 1);
        KeysDiffer(c, s, b, n - 1);
        assert false;
      }
    }
  }

  lemma KeysDiffer(c: C.Cache, s: Sys, i: int, j: int)
    requires Couples(c, s) && 0 <= i < j < C.NBUF && c.bufs[i].key.dev != 0
    ensures c.bufs[i].key != c.bufs[j].key
  {
  }

  lemma DirtyIsPinned(c: C.Cache, s: Sys, b: int)
    requires Couples(c, s) && 0 <= b < C.NBUF && c.bufs[b].dirty
    ensures c.bufs[b].key == Dev(c.bufs[b].key.blockno) && c.bufs[b].key.dev != 0 && c.bufs[b].key.blockno in s.pinned
  {
    assert C.Sound(c.bufs[b], c.disk) && O.IsDirty(c, c.bufs[b].key);
  }

  lemma PinnedAreDirty(c: C.Cache, s: Sys, n: nat)
    requires Couples(c, s) && n == C.NBUF
    ensures forall k :: k in s.pinned.Keys <==> k in DirtyBlocks(c.bufs, n)
  {
    hide DirtyBlocks;
    forall k ensures k in s.pinned.Keys <==> k in DirtyBlocks(c.bufs, n) {
      if k in s.pinned {
        assert O.IsDirty(c, Dev(k));
      }
      if k in DirtyBlocks(c.bufs, n) {
        var b :| 0 <= b < n && c.bufs[b].dirty && c.bufs[b].key.blockno == k;
        DirtyIsPinned(c, s, b);
      }
    }
  }

  /** How many of the first n buffers are clean but referenced by somebody. */
  function HeldClean(bufs: seq<C.Buf>, n: nat): (r: nat)
    requires n <= |bufs|
    decreases bufs, n
  {
    if n == 0 then 0 else HeldClean(bufs, n - 1) + if bufs[n - 1].refcnt != 0 && !bufs[n - 1].dirty then 1 else 0
  }

  lemma {:induction false} CountAll(bufs: seq<C.Buf>, n: nat)
    requires n <= |bufs|
    ensures |DirtyBlocks(bufs, n)| + HeldClean(bufs, n) <= n
    ensures |DirtyBlocks(bufs, n)| + HeldClean(bufs, n) == n <==> forall b :: 0 <= b < n ==> !C.Reusable(bufs[b])
  {
    if n > 0 { CountAll(bufs, n - 1); }
  }

  /** commit finds a buffer for its log blocks exactly when the pinned blocks and the clean buffers
      that others hold are fewer than NBUF together. */
  lemma BufferLeftIff(c: C.Cache, s: Sys)
    requires Couples(c, s)
    ensures |c.bufs| == C.NBUF
    ensures O.SomeReusable(c) <==> |s.pinned.Keys| + HeldClean(c.bufs, C.NBUF) < C.NBUF
  {
    hide DirtyBlocks;
    hide Elements;
    hide Pins;
    var n := C.NBUF;
    CountAll(c.bufs, n);
    DirtyBlocksDistinct(c, s, n);
    PinnedAreDirty(c, s, n);
    SizeOfDistinct(DirtyBlocks(c.bufs, n));
    var q, keys := DirtyBlocks(c.bufs, n), s.pinned.Keys;
    assert forall x :: x in Elements(q) <==> x in q;
    assert forall x :: x in q <==> x in keys;
    assert Elements(q) == keys;
  }

  lemma PinnedAtMostListed(g: Geometry, s: Sys)
    requires Shape(g, s)
    ensures |s.pinned.Keys| <= |s.lh|
  {
    SizeOfDistinct(s.lh);
    var a, b := s.pinned.Keys, Elements(s.lh);
    assert forall x :: x in a ==> x in s.lh;
    assert b == a + (b - a);
  }

  /** A log of LOGSIZE blocks, its header included, never pins all NBUF buffers: if nobody else
      holds one, commit finds a buffer. */
  lemma SmallLogHasBuffer(g: Geometry, c: C.Cache, s: Sys)
    requires Shape(g, s) && Couples(c, s) && g.size <= LOGSIZE && O.Quiet(c)
    ensures O.SomeReusable(c)
  {
    PinnedAtMostListed(g, s);
    BufferLeftIff(c, s);
    hide Couples, Shape;
    NoneHeld(c.bufs, C.NBUF);
  }

  lemma {:induction false} NoneHeld(bufs: seq<C.Buf>, n: nat)
    requires n <= |bufs| && forall b :: 0 <= b < |bufs| ==> bufs[b].refcnt == 0
    ensures HeldClean(bufs, n) == 0
  {
    if n > 0 { NoneHeld(bufs, n - 1); }
  }

  // ----- a larger log can pin them all

  /** The cache that holds the listed blocks of s, pinned, and nothing else. */
  ghost function FullCache(g: Geometry, s: Sys): C.Cache
    requires Shape(g, s) && |s.lh| == C.NBUF && !s.phase.Installing?
  {
    C.Cache(seq(C.NBUF, i requires 0 <= i < C.NBUF => C.Buf(Dev(s.lh[i]), true, true, 0, false, s.pinned[s.lh[i]], false, 0)),
            seq(C.NBUF, i => i), DeviceOf(s.disk), 0)
  }

  lemma FullCacheCouples(g: Geometry, s: Sys)
    requires Shape(g, s) && |s.lh| == C.NBUF && !s.phase.Installing?
    ensures var c := FullCache(g, s); Couples(c, s) && O.Quiet(c) && !O.SomeReusable(c)
  {
    var c := FullCache(g, s);
    forall b | 0 <= b < C.NBUF ensures b in c.ring { assert c.ring[b] == b; }
    assert C.Inv(c);
    forall k | k in s.pinned
      ensures 0 <= k < |s.disk| && O.IsDirty(c, Dev(k)) && C.View(c, Dev(k)) == s.pinned[k]
    {
      var i :| 0 <= i < |s.lh| && s.lh[i] == k;
      assert c.bufs[i].dirty && c.bufs[i].key == Dev(k);
      C.ViewAt(c, i);
    }
    hide C.View, C.Inv;
    forall k: C.Key | k.dev != 0 && O.IsDirty(c, k) ensures k == Dev(k.blockno) && k.blockno in s.pinned {
      var b :| 0 <= b < C.NBUF && c.bufs[b].dirty && c.bufs[b].key == k;
    }
  }

  /** With NBUF blocks listed no cache that represents the state has a buffer left. */
  lemma FullLeavesNone(g: Geometry, c: C.Cache, s: Sys)
    requires Shape(g, s) && |s.lh| == C.NBUF && !s.phase.Installing? && Couples(c, s)
    ensures !O.SomeReusable(c)
  {
    hide Couples;
    PinnedAsListed(g, s);
    BufferLeftIff(c, s);
  }

  lemma PinnedAsListed(g: Geometry, s: Sys)
    requires Shape(g, s) && !s.phase.Installing?
    ensures |s.pinned.Keys| == |s.lh|
  {
    hide Elements;
    SizeOfDistinct(s.lh);
    var a, b := s.pinned.Keys, Elements(s.lh);
    assert forall x :: x in a <==> x in s.lh;
    assert forall x :: x in b <==> x in s.lh;
    assert a == b;
  }

  /** Whatever the size of the log, some run within the budgets panics.  A log of at most LOGSIZE
      blocks leaves log_write no room.  A larger one lets three operations pin every buffer, and the
      last end_op starts a commit that finds none. */
  lemma EitherPanics(g: Geometry, d: Image)
    requires IsDisk(g, d) && HeaderOf(d[g.start]) == [] && g.start + g.size + LOGSIZE <= g.len
    ensures g.size <= LOGSIZE ==> exists r, op, b ::
      (&& T.IsRun(g, r) && T.First(r) == T.Booted(g, d)
       && Outstanding(T.Final(g, r), op) && Home(g, b) && b !in T.Final(g, r).lh && T.Final(g, r).used[op] < MAXOPBLOCKS
       && TooBig(g, T.Final(g, r)))
    ensures g.size > LOGSIZE ==> exists r, c ::
      (&& T.IsRun(g, r) && T.First(r) == T.Booted(g, d) && T.Final(g, r).phase == Logging(0)
       && Couples(c, T.Final(g, r)) && O.Quiet(c)
       && forall c' :: Couples(c', T.Final(g, r)) ==> !O.SomeReusable(c'))
  {
    if g.size <= LOGSIZE {
      SmallLogPanics(g, d);
    } else {
      var r := FullLogCommits(g, d);
      var s := T.Final(g, r);
      FullCacheCouples(g, s);
      forall c' | Couples(c', s) ensures !O.SomeReusable(c') { FullLeavesNone(g, c', s); }
    }
  }

  /** The three operations that filled the log end one after the other. */
  lemma FullLogCommits(g: Geometry, d: Image) returns (r: T.Run)
    requires IsDisk(g, d) && HeaderOf(d[g.start]) == [] && g.start + g.size + LOGSIZE <= g.len && g.size > LOGSIZE
    ensures T.IsRun(g, r) && T.First(r) == T.Booted(g, d)
    ensures var s := T.Final(g, r); Shape(g, s) && s.phase == Logging(0) && |s.lh| == LOGSIZE
  {
    hide HeaderOf, T.IsRun, T.Final, T.Booted, Inv, Fill;
    FillRuns(g, d, LOGSIZE);
    FillStarts(g, d, LOGSIZE);
    T.BootedInv(g, d);
    r := Fill(g, d, LOGSIZE);
    r := Ends(g, d, r, 3);
    r := Ends(g, d, r, 2);
    r := Ends(g, d, r, 1);
    T.RunKeepsInv(g, d, r);
  }

  lemma Ends(g: Geometry, d: Image, r: T.Run, n: nat) returns (r': T.Run)
    requires T.IsRun(g, r) && Inv(g, d, T.First(r)) && n > 0
    requires var s := T.Final(g, r); s.phase.Open? && |s.used| == |s.ops| == n && s.lh != []
    ensures T.IsRun(g, r') && T.First(r') == T.First(r)
    ensures var s, s' := T.Final(g, r), T.Final(g, r');
      s'.lh == s.lh && |s'.used| == |s'.ops| == n - 1 && s'.phase == if n == 1 then Logging(0) else Open
  {
    hide Inv, T.IsRun, Shape;
    assert T.First(T.Then(r, End(0))) == T.First(r);
    T.RunGoesOn(g, d, r, End(0));
    r' := T.Then(r, End(0));
    hide T.Final;
  }
}
