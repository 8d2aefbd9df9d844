/** The block allocator and the direct/indirect map from file blocks to disk blocks.

    A disk is its free map, its blocks and its inodes. An inode has 141 slots that can hold a
    block number: the twelve direct ones, the one that names the indirect block, and the 128
    words inside that block. Conservation says that the blocks marked in use are the metadata
    blocks and, each exactly once, the blocks in those slots. */
module FsModel {

  import opened FsBits

  const NDIRECT: int := 12
  const MAXFILE: int := NDIRECT + NINDIRECT
  const NSLOTS: int := NDIRECT + 1 + NINDIRECT
  const MAXBYTES: int := MAXFILE * BSIZE

  type Addrs = a: seq<int> | |a| == NDIRECT + 1 witness seq(NDIRECT + 1, _ => 0)

  datatype Inode = Inode(size: int, addrs: Addrs)

  datatype Fs = Fs(nmeta: int, bits: seq<bv8>, blocks: seq<Block>, inodes: seq<Inode>)

  function NoAddrs(): Addrs {
    seq(NDIRECT + 1, _ => 0)
  }

  /** What slot s of inode i holds; zero is no block. */
  function GetSlot(fs: Fs, i: int, s: int): int
    requires 0 <= i < |fs.inodes| && 0 <= s < NSLOTS
  {
    var a := fs.inodes[i].addrs;
    if s <= NDIRECT then a[s]
    else if 0 < a[NDIRECT] < |fs.blocks| then Word(fs.blocks[a[NDIRECT]], s - NDIRECT - 1)
    else 0
  }

  predicate Shape(fs: Fs) {
    && 0 < fs.nmeta <= |fs.blocks| <= 8 * |fs.bits|
    && |fs.blocks| < UINT
    && (forall i :: 0 <= i < |fs.inodes| ==> 0 <= fs.inodes[i].size <= MAXBYTES)
  }

  predicate InUse(fs: Fs, b: int) {
    0 <= b < |fs.blocks| && b < 8 * |fs.bits| && IsSet(fs.bits, b)
  }

  predicate SlotsMarked(fs: Fs) {
    forall i, s :: 0 <= i < |fs.inodes| && 0 <= s < NSLOTS && GetSlot(fs, i, s) != 0 ==>
      fs.nmeta <= GetSlot(fs, i, s) && InUse(fs, GetSlot(fs, i, s))
  }

  predicate SlotsDistinct(fs: Fs) {
    forall i, s, j, t :: 0 <= i < |fs.inodes| && 0 <= s < NSLOTS && 0 <= j < |fs.inodes| && 0 <= t < NSLOTS ==>
      GetSlot(fs, i, s) == GetSlot(fs, j, t) != 0 ==> i == j && s == t
  }

  predicate Owned(fs: Fs, b: int) {
    exists i, s :: 0 <= i < |fs.inodes| && 0 <= s < NSLOTS && GetSlot(fs, i, s) == b
  }

  /** The blocks in use are the metadata and the disjoint union of all inodes' slots. */
  ghost predicate Conserved(fs: Fs)
    ensures Conserved(fs) ==> Shape(fs)
  {
    && Shape(fs)
    && (forall b :: 0 <= b < fs.nmeta ==> InUse(fs, b))
    && SlotsMarked(fs)
    && SlotsDistinct(fs)
    && (forall b :: fs.nmeta <= b && InUse(fs, b) ==> Owned(fs, b))
  }

  // ----- file contents

  /** The slot that holds the n-th block of a file. */
  function DataSlot(n: int): (s: int)
    requires 0 <= n < MAXFILE
    ensures 0 <= s < NSLOTS && s != NDIRECT
  {
    if n < NDIRECT then n else n + 1
  }

  function FileBlock(fs: Fs, i: int, n: int): int
    requires 0 <= i < |fs.inodes| && 0 <= n < MAXFILE
  {
    GetSlot(fs, i, DataSlot(n))
  }

  /** Byte k of file i; a hole reads as zero. */
  function RawByte(fs: Fs, i: int, k: int): Byte
    requires 0 <= i < |fs.inodes| && 0 <= k < MAXBYTES
  {
    var a := FileBlock(fs, i, k / BSIZE);
    if 0 < a < |fs.blocks| then fs.blocks[a][k % BSIZE] else 0
  }

  function Contents(fs: Fs, i: int): (c: seq<Byte>)
    requires 0 <= i < |fs.inodes| && 0 <= fs.inodes[i].size <= MAXBYTES
    ensures |c| == fs.inodes[i].size
  {
    seq(fs.inodes[i].size, k requires 0 <= k < fs.inodes[i].size => RawByte(fs, i, k))
  }

  /** Every block below the size of file i is there. */
  predicate NoHoles(fs: Fs, i: int)
    requires 0 <= i < |fs.inodes|
  {
    forall n :: 0 <= n < MAXFILE && n * BSIZE < fs.inodes[i].size ==> FileBlock(fs, i, n) != 0
  }

  // ----- allocation

  /** The first free block at or after b, or the size of the disk. */
  function FirstFree(fs: Fs, b: int): (r: int)
    requires 0 <= b <= |fs.blocks| <= 8 * |fs.bits|
    ensures b <= r <= |fs.blocks|
    ensures forall x :: b <= x < r ==> InUse(fs, x)
    ensures r < |fs.blocks| ==> !InUse(fs, r)
    decreases |fs.blocks| - b
  {
    if b < |fs.blocks| && InUse(fs, b) then FirstFree(fs, b + 1) else b
  }

  /** Marks block b in use and clears it. */
  function Claim(fs: Fs, b: int): (r: Fs)
    requires 0 <= b < |fs.blocks| <= 8 * |fs.bits|
    ensures |r.blocks| == |fs.blocks| && |r.bits| == |fs.bits|
  {
    fs.(bits := SetBit(fs.bits, b), blocks := fs.blocks[b := Zeros()])
  }

  predicate CanPut(fs: Fs, i: int, s: int, b: int) {
    && 0 <= i < |fs.inodes| && 0 <= s < NSLOTS && 0 <= b < UINT
    && (s > NDIRECT ==> 0 < fs.inodes[i].addrs[NDIRECT] < |fs.blocks|)
  }

  function PutSlot(fs: Fs, i: int, s: int, b: int): (r: Fs)
    requires CanPut(fs, i, s, b)
    ensures |r.blocks| == |fs.blocks| && r.bits == fs.bits && |r.inodes| == |fs.inodes| && r.nmeta == fs.nmeta
  {
    var ip := fs.inodes[i];
    if s <= NDIRECT then
      fs.(inodes := fs.inodes[i := ip.(addrs := ip.addrs[s := b])])
    else
      var ind := ip.addrs[NDIRECT];
      fs.(blocks := fs.blocks[ind := PutWord(fs.blocks[ind], s - NDIRECT - 1, b)])
  }

  /** A cleared free block goes into an empty slot. */
  function AllocSlot(fs: Fs, i: int, s: int, b: int): (r: Fs)
    requires 0 <= b < |fs.blocks| <= 8 * |fs.bits| && CanPut(fs, i, s, b)
  {
    PutSlot(Claim(fs, b), i, s, b)
  }

  ghost predicate CanAlloc(fs: Fs, i: int, s: int, b: int) {
    && Conserved(fs)
    && CanPut(fs, i, s, b) && b < |fs.blocks|
    && !InUse(fs, b)
    && GetSlot(fs, i, s) == 0
  }

  lemma ClaimInUse(fs: Fs, b: int, x: int)
    requires 0 <= b < |fs.blocks| <= 8 * |fs.bits|
    ensures InUse(Claim(fs, b), x) <==> x == b || InUse(fs, x)
  {
    if 0 <= x < |fs.blocks| { SetBitExact(fs.bits, b, x); }
  }

  lemma AllocInUse(fs: Fs, i: int, s: int, b: int)
    requires CanAlloc(fs, i, s, b)
    ensures var r := AllocSlot(fs, i, s, b);
      forall x :: InUse(r, x) <==> x == b || InUse(fs, x)
  {
    var r := AllocSlot(fs, i, s, b);
    forall x ensures InUse(r, x) <==> x == b || InUse(fs, x) { ClaimInUse(fs, b, x); }
  }

  /** Filling one slot fills no other, in any inode. */
  lemma AllocOneSlot(fs: Fs, i: int, s: int, b: int, j: int, t: int)
    requires CanAlloc(fs, i, s, b)
    requires 0 <= j < |fs.inodes| && 0 <= t < NSLOTS
    ensures GetSlot(AllocSlot(fs, i, s, b), j, t) == if i == j && s == t then b else GetSlot(fs, j, t)
  {
    hide IsSet;
    var ind := GetSlot(fs, j, NDIRECT);
    if t > NDIRECT && ind != 0 {
      assert InUse(fs, ind) && ind != b;
      if s > NDIRECT {
        var other := GetSlot(fs, i, NDIRECT);
        assert InUse(fs, other) && other != b;
        PutWordExact(fs.blocks[other], s - NDIRECT - 1, b, t - NDIRECT - 1);
      }
    } else if t > NDIRECT && s == NDIRECT && i == j {
      ZeroWord(t - NDIRECT - 1);
    }
  }

  lemma AllocSlots(fs: Fs, i: int, s: int, b: int)
    requires CanAlloc(fs, i, s, b)
    ensures var r := AllocSlot(fs, i, s, b);
      && |r.inodes| == |fs.inodes|
      && (forall j, t :: 0 <= j < |fs.inodes| && 0 <= t < NSLOTS ==>
            GetSlot(r, j, t) == if i == j && s == t then b else GetSlot(fs, j, t))
  {
    hide SlotsMarked, SlotsDistinct;
    var r := AllocSlot(fs, i, s, b);
    forall j, t | 0 <= j < |fs.inodes| && 0 <= t < NSLOTS
      ensures GetSlot(r, j, t) == if i == j && s == t then b else GetSlot(fs, j, t)
    {
      AllocOneSlot(fs, i, s, b, j, t);
    }
  }

  /** Allocation keeps conservation. */
  lemma AllocConserves(fs: Fs, i: int, s: int, b: int)
    requires CanAlloc(fs, i, s, b)
    ensures Conserved(AllocSlot(fs, i, s, b))
  {
    AllocSlots(fs, i, s, b);
    AllocInUse(fs, i, s, b);
    var r := AllocSlot(fs, i, s, b);
    hide GetSlot, IsSet, InUse;
    assert InUse(fs, 0);
    assert Shape(r) by { assert forall j :: 0 <= j < |r.inodes| ==> r.inodes[j].size == fs.inodes[j].size; }
    assert SlotsMarked(r);
    assert SlotsDistinct(r);
    forall x | r.nmeta <= x && InUse(r, x) ensures Owned(r, x) {
      if x == b {
        assert GetSlot(r, i, s) == b;
      } else {
        assert Owned(fs, x);
        var j, t :| 0 <= j < |fs.inodes| && 0 <= t < NSLOTS && GetSlot(fs, j, t) == x;
        assert GetSlot(r, j, t) == x;
      }
    }
  }

  /** Allocation changes no byte of any file: the new block is clear, and a hole read as zero. */
  lemma AllocKeepsBytes(fs: Fs, i: int, s: int, b: int, j: int, k: int)
    requires CanAlloc(fs, i, s, b)
    requires 0 <= j < |fs.inodes| && 0 <= k < MAXBYTES
    ensures |AllocSlot(fs, i, s, b).inodes| == |fs.inodes|
    ensures RawByte(AllocSlot(fs, i, s, b), j, k) == RawByte(fs, j, k)
  {
    AllocOneSlot(fs, i, s, b, j, DataSlot(k / BSIZE));
    var a := FileBlock(fs, j, k / BSIZE);
    assert a != 0 ==> InUse(fs, a);
    if s > NDIRECT {
      assert a != 0 ==> a != GetSlot(fs, i, NDIRECT);
      assert InUse(fs, GetSlot(fs, i, NDIRECT));
    }
    hide GetSlot, IsSet, Conserved;
  }

  // ----- the map from file blocks to disk blocks

  /** From fs to r, inode i may have gained blocks; nothing else can be seen to change. */
  ghost predicate Grown(fs: Fs, r: Fs, i: int)
    ensures Grown(fs, r, i) ==> Conserved(r) && |r.inodes| == |fs.inodes|
  {
    && Conserved(r)
    && r.nmeta == fs.nmeta && |r.bits| == |fs.bits| && |r.blocks| == |fs.blocks| && |r.inodes| == |fs.inodes|
    && (forall j :: 0 <= j < |fs.inodes| ==> r.inodes[j].size == fs.inodes[j].size)
    && (forall j :: 0 <= j < |fs.inodes| && j != i ==> r.inodes[j] == fs.inodes[j])
    && (forall j, t :: 0 <= j < |fs.inodes| && 0 <= t < NSLOTS && (j != i || GetSlot(fs, j, t) != 0) ==>
          GetSlot(r, j, t) == GetSlot(fs, j, t))
    && (forall j, k :: 0 <= j < |fs.inodes| && 0 <= k < MAXBYTES ==> RawByte(r, j, k) == RawByte(fs, j, k))
  }

  lemma AllocGrows(fs: Fs, i: int, s: int, b: int)
    requires CanAlloc(fs, i, s, b)
    ensures Grown(fs, AllocSlot(fs, i, s, b), i)
    ensures GetSlot(AllocSlot(fs, i, s, b), i, s) == b > 0
  {
    var r := AllocSlot(fs, i, s, b);
    AllocConserves(fs, i, s, b);
    AllocSlots(fs, i, s, b);
    assert InUse(fs, 0);
    forall j, k | 0 <= j < |fs.inodes| && 0 <= k < MAXBYTES ensures RawByte(r, j, k) == RawByte(fs, j, k) {
      AllocKeepsBytes(fs, i, s, b, j, k);
    }
    hide GetSlot, RawByte, IsSet, Conserved, InUse;
  }

  lemma GrownTwice(fs: Fs, m: Fs, r: Fs, i: int)
    requires 0 <= i < |fs.inodes| && Grown(fs, m, i) && Grown(m, r, i)
    ensures Grown(fs, r, i)
  {
    hide Conserved, GetSlot, RawByte;
  }

  datatype Outcome = Done(fs: Fs) | OutOfBlocks

  /** Slot s of inode i, given a block if it has none. */
  function Fill(fs: Fs, i: int, s: int): Outcome
    requires 0 <= i < |fs.inodes| && 0 <= s < NSLOTS && |fs.blocks| <= 8 * |fs.bits| && |fs.blocks| < UINT
    requires s > NDIRECT ==> 0 < fs.inodes[i].addrs[NDIRECT] < |fs.blocks|
  {
    if GetSlot(fs, i, s) != 0 then Done(fs)
    else
      var b := FirstFree(fs, 0);
      if b < |fs.blocks| then Done(AllocSlot(fs, i, s, b)) else OutOfBlocks
  }

  lemma FillGrows(fs: Fs, i: int, s: int)
    requires Conserved(fs) && 0 <= i < |fs.inodes| && 0 <= s < NSLOTS
    requires s > NDIRECT ==> 0 < fs.inodes[i].addrs[NDIRECT] < |fs.blocks|
    ensures var r := Fill(fs, i, s);
      if r.Done? then Grown(fs, r.fs, i) && GetSlot(r.fs, i, s) != 0
      else forall b :: 0 <= b < |fs.blocks| ==> InUse(fs, b)
    ensures GetSlot(fs, i, s) != 0 ==> Fill(fs, i, s) == Done(fs)
  {
    if GetSlot(fs, i, s) == 0 {
      var b := FirstFree(fs, 0);
      if b < |fs.blocks| { AllocGrows(fs, i, s, b); }
    }
    hide Conserved, AllocSlot, RawByte;
  }

  /** File block n of inode i, allocating it, and first the indirect block, where missing. */
  ghost function Bmap(fs: Fs, i: int, n: int): Outcome
    requires Conserved(fs) && 0 <= i < |fs.inodes| && 0 <= n < MAXFILE
  {
    if n < NDIRECT then Fill(fs, i, n)
    else
      FillGrows(fs, i, NDIRECT);
      var m := Fill(fs, i, NDIRECT);
      if m.OutOfBlocks? then m
      else
        IndirectInRange(m.fs, i);
        Fill(m.fs, i, n + 1)
  }

  lemma IndirectInRange(fs: Fs, i: int)
    requires Conserved(fs) && 0 <= i < |fs.inodes|
    ensures 0 <= fs.inodes[i].addrs[NDIRECT] < |fs.blocks|
  {
    var a := GetSlot(fs, i, NDIRECT);
    assert a == 0 || InUse(fs, a);
  }

  /** The block map: the wanted block is there afterwards, no byte of any file has changed,
      conservation holds, and it gives up only when the disk is full. */
  lemma BmapGrows(fs: Fs, i: int, n: int)
    requires Conserved(fs) && 0 <= i < |fs.inodes| && 0 <= n < MAXFILE
    ensures var r := Bmap(fs, i, n);
      r.Done? ==> Grown(fs, r.fs, i) && FileBlock(r.fs, i, n) != 0 && InUse(r.fs, FileBlock(r.fs, i, n))
    ensures FileBlock(fs, i, n) != 0 ==> Bmap(fs, i, n) == Done(fs)
  {
    hide Conserved, InUse, Fill, RawByte;
    if n < NDIRECT {
      FillGrows(fs, i, n);
    } else {
      FillGrows(fs, i, NDIRECT);
      var m := Fill(fs, i, NDIRECT);
      if m.Done? {
        IndirectInRange(m.fs, i);
        FillGrows(m.fs, i, n + 1);
        var r := Fill(m.fs, i, n + 1);
        if r.Done? { GrownTwice(fs, m.fs, r.fs, i); }
      }
    }
    var r := Bmap(fs, i, n);
    if r.Done? { SlotInUse(r.fs, i, DataSlot(n)); }
  }

  lemma SlotInUse(fs: Fs, i: int, s: int)
    requires Conserved(fs) && 0 <= i < |fs.inodes| && 0 <= s < NSLOTS && GetSlot(fs, i, s) != 0
    ensures fs.nmeta <= GetSlot(fs, i, s) && InUse(fs, GetSlot(fs, i, s))
  {
  }

  // ----- writing data

  function WriteData(fs: Fs, i: int, n: int, data: Block): Fs
    requires 0 <= i < |fs.inodes| && 0 <= n < MAXFILE && 0 < FileBlock(fs, i, n) < |fs.blocks|
  {
    fs.(blocks := fs.blocks[FileBlock(fs, i, n) := data])
  }

  lemma WriteKeepsSlots(fs: Fs, i: int, n: int, data: Block, j: int, t: int)
    requires Conserved(fs)
    requires 0 <= i < |fs.inodes| && 0 <= n < MAXFILE && 0 < FileBlock(fs, i, n) < |fs.blocks|
    requires 0 <= j < |fs.inodes| && 0 <= t < NSLOTS
    ensures GetSlot(WriteData(fs, i, n, data), j, t) == GetSlot(fs, j, t)
  {
    assert GetSlot(fs, j, NDIRECT) != GetSlot(fs, i, DataSlot(n));
  }

  /** Writing one data block of file i changes those bytes of file i and no others. */
  lemma WriteKeepsBytes(fs: Fs, i: int, n: int, data: Block, j: int, k: int)
    requires Conserved(fs)
    requires 0 <= i < |fs.inodes| && 0 <= n < MAXFILE && 0 < FileBlock(fs, i, n) < |fs.blocks|
    requires 0 <= j < |fs.inodes| && 0 <= k < MAXBYTES
    ensures RawByte(WriteData(fs, i, n, data), j, k) ==
            if j == i && k / BSIZE == n then data[k % BSIZE] else RawByte(fs, j, k)
  {
    WriteKeepsSlots(fs, i, n, data, j, DataSlot(k / BSIZE));
    if j != i || k / BSIZE != n {
      assert GetSlot(fs, j, DataSlot(k / BSIZE)) != GetSlot(fs, i, DataSlot(n));
    }
    hide GetSlot, Conserved;
  }

  lemma WriteConserves(fs: Fs, i: int, n: int, data: Block)
    requires Conserved(fs)
    requires 0 <= i < |fs.inodes| && 0 <= n < MAXFILE && 0 < FileBlock(fs, i, n) < |fs.blocks|
    ensures Conserved(WriteData(fs, i, n, data))
    ensures forall j, t :: 0 <= j < |fs.inodes| && 0 <= t < NSLOTS ==>
      GetSlot(WriteData(fs, i, n, data), j, t) == GetSlot(fs, j, t)
  {
    var r := WriteData(fs, i, n, data);
    forall j, t | 0 <= j < |fs.inodes| && 0 <= t < NSLOTS ensures GetSlot(r, j, t) == GetSlot(fs, j, t) {
      WriteKeepsSlots(fs, i, n, data, j, t);
    }
    hide GetSlot, IsSet;
    assert forall x :: InUse(r, x) <==> InUse(fs, x);
    SameSlotsConserve(fs, r);
  }

  /** Conservation looks only at the slots, the marks and the sizes. */
  lemma SameSlotsConserve(fs: Fs, r: Fs)
    requires Conserved(fs) && Shape(r) && r.nmeta == fs.nmeta && |r.inodes| == |fs.inodes|
    requires forall x :: InUse(r, x) <==> InUse(fs, x)
    requires forall j, t :: 0 <= j < |fs.inodes| && 0 <= t < NSLOTS ==> GetSlot(r, j, t) == GetSlot(fs, j, t)
    ensures Conserved(r)
  {
    hide GetSlot, InUse;
    forall x | r.nmeta <= x && InUse(r, x) ensures Owned(r, x) {
      assert Owned(fs, x);
      var j, t :| 0 <= j < |fs.inodes| && 0 <= t < NSLOTS && GetSlot(fs, j, t) == x;
      assert GetSlot(r, j, t) == x;
    }
  }

  // ----- truncation

  /** x is one of the first q data blocks of file i. */
  predicate Among(fs: Fs, i: int, q: int, x: int)
    requires 0 <= i < |fs.inodes| && 0 <= q <= MAXFILE
  {
    exists n :: 0 <= n < q && FileBlock(fs, i, n) == x
  }

  /** Inode i emptied: its slots are clear, and the marks of exactly its blocks are gone. */
  ghost predicate Truncated(fs: Fs, r: Fs, i: int)
    requires 0 <= i < |fs.inodes|
  {
    && r.nmeta == fs.nmeta && |r.bits| == |fs.bits| && r.blocks == fs.blocks
    && r.inodes == fs.inodes[i := Inode(0, NoAddrs())]
    && forall x :: InUse(r, x) <==>
         InUse(fs, x) && !(x != 0 && (Among(fs, i, MAXFILE, x) || fs.inodes[i].addrs[NDIRECT] == x))
  }

  lemma SlotIsAmong(fs: Fs, i: int, s: int)
    requires 0 <= i < |fs.inodes| && 0 <= s < NSLOTS && GetSlot(fs, i, s) != 0
    ensures Among(fs, i, MAXFILE, GetSlot(fs, i, s)) || fs.inodes[i].addrs[NDIRECT] == GetSlot(fs, i, s)
  {
    if s != NDIRECT {
      var n := if s < NDIRECT then s else s - 1;
      assert DataSlot(n) == s && FileBlock(fs, i, n) == GetSlot(fs, i, s);
    }
  }

  lemma AmongIsSlot(fs: Fs, i: int, x: int) returns (s: int)
    requires 0 <= i < |fs.inodes| && (Among(fs, i, MAXFILE, x) || fs.inodes[i].addrs[NDIRECT] == x)
    ensures 0 <= s < NSLOTS && GetSlot(fs, i, s) == x
  {
    if Among(fs, i, MAXFILE, x) {
      var n :| 0 <= n < MAXFILE && FileBlock(fs, i, n) == x;
      s := DataSlot(n);
    } else {
      s := NDIRECT;
    }
  }

  /** Emptying an inode keeps conservation, and every other file. */
  lemma TruncationConserves(fs: Fs, r: Fs, i: int)
    requires Conserved(fs) && 0 <= i < |fs.inodes| && Truncated(fs, r, i)
    ensures Conserved(r)
    ensures forall s :: 0 <= s < NSLOTS ==> GetSlot(r, i, s) == 0
    ensures forall j, k :: 0 <= j < |fs.inodes| && j != i && 0 <= k < MAXBYTES ==> RawByte(r, j, k) == RawByte(fs, j, k)
  {
    assert forall j, t :: 0 <= j < |fs.inodes| && 0 <= t < NSLOTS ==>
      GetSlot(r, j, t) == if j == i then 0 else GetSlot(fs, j, t);
    assert Shape(r);
    hide GetSlot, IsSet, InUse;
    forall j, t | 0 <= j < |fs.inodes| && 0 <= t < NSLOTS && GetSlot(r, j, t) != 0
      ensures r.nmeta <= GetSlot(r, j, t) && InUse(r, GetSlot(r, j, t))
    {
      var x := GetSlot(fs, j, t);
      if Among(fs, i, MAXFILE, x) || fs.inodes[i].addrs[NDIRECT] == x {
        var s := AmongIsSlot(fs, i, x);
        assert false;
      }
    }
    assert SlotsMarked(r) && SlotsDistinct(r);
    forall x | r.nmeta <= x && InUse(r, x) ensures Owned(r, x) {
      assert Owned(fs, x);
      var j, t :| 0 <= j < |fs.inodes| && 0 <= t < NSLOTS && GetSlot(fs, j, t) == x;
      if j == i { SlotIsAmong(fs, i, t); }
      assert GetSlot(r, j, t) == x;
    }
    forall b | 0 <= b < r.nmeta ensures InUse(r, b) {
      if b != 0 && (Among(fs, i, MAXFILE, b) || fs.inodes[i].addrs[NDIRECT] == b) {
        var s := AmongIsSlot(fs, i, b);
        assert false;
      }
    }
  }
}
