/** What reading and writing mean for the bytes of files, and how many blocks they log. */
module FsFiles {

  import opened FsBits
  import opened FsModel

  // ----- the meaning of a write

  /** From fs to r, the bytes of file i from off are src; no other byte of any file changed,
      and no block was taken from any file. */
  ghost predicate Patched(fs: Fs, r: Fs, i: int, off: int, src: seq<Byte>)
    requires 0 <= i < |fs.inodes| && 0 <= off
  {
    && r.nmeta == fs.nmeta && |r.bits| == |fs.bits| && |r.blocks| == |fs.blocks| && |r.inodes| == |fs.inodes|
    && (forall j :: 0 <= j < |fs.inodes| && j != i ==> r.inodes[j] == fs.inodes[j])
    && (forall j, t :: 0 <= j < |fs.inodes| && 0 <= t < NSLOTS && (j != i || GetSlot(fs, j, t) != 0) ==>
          GetSlot(r, j, t) == GetSlot(fs, j, t))
    && (forall j, k :: 0 <= j < |fs.inodes| && 0 <= k < MAXBYTES ==>
          RawByte(r, j, k) == if j == i && off <= k < off + |src| then src[k - off] else RawByte(fs, j, k))
  }

  function Max(a: int, b: int): int {
    if a < b then b else a
  }

  /** A write at off replaces what was there, and what lies past it stays. */
  function Overwrite(c: seq<Byte>, off: int, src: seq<Byte>): (r: seq<Byte>)
    requires 0 <= off <= |c|
    ensures |r| == Max(|c|, off + |src|)
  {
    c[..off] + src + (if off + |src| < |c| then c[off + |src|..] else [])
  }

  /** The refinement: a patched file has the overwritten contents, and the others theirs. */
  lemma PatchOverwrites(fs: Fs, r: Fs, i: int, off: int, src: seq<Byte>)
    requires Shape(fs) && Shape(r) && 0 <= i < |fs.inodes| && 0 <= off <= fs.inodes[i].size
    requires Patched(fs, r, i, off, src)
    requires r.inodes[i].size == Max(fs.inodes[i].size, off + |src|)
    ensures Contents(r, i) == Overwrite(Contents(fs, i), off, src)
    ensures forall j :: 0 <= j < |fs.inodes| && j != i ==> Contents(r, j) == Contents(fs, j)
  {
    hide RawByte, GetSlot;
    forall j | 0 <= j < |fs.inodes| && j != i ensures Contents(r, j) == Contents(fs, j) {}
    var c, o := Contents(r, i), Overwrite(Contents(fs, i), off, src);
    forall k | 0 <= k < |c| ensures c[k] == o[k] {}
  }

  /** Reading back what was written gives it back. */
  lemma ReadAfterWrite(c: seq<Byte>, off: int, src: seq<Byte>)
    requires 0 <= off <= |c|
    ensures Overwrite(c, off, src)[off..off + |src|] == src
  {
  }

  lemma PatchTwice(fs: Fs, m: Fs, r: Fs, i: int, off: int, a: seq<Byte>, b: seq<Byte>)
    requires 0 <= i < |fs.inodes| && 0 <= off
    requires Patched(fs, m, i, off, a) && Patched(m, r, i, off + |a|, b)
    ensures Patched(fs, r, i, off, a + b)
  {
    hide RawByte, GetSlot;
  }

  lemma GrownIsPatched(fs: Fs, r: Fs, i: int, off: int)
    requires 0 <= i < |fs.inodes| && 0 <= off && Grown(fs, r, i)
    ensures Patched(fs, r, i, off, [])
  {
    hide RawByte, Conserved, GetSlot;
  }

  function Splice(old0: Block, at: int, src: seq<Byte>): (r: Block)
    requires 0 <= at && at + |src| <= BSIZE
  {
    old0[..at] + src + old0[at + |src|..]
  }

  /** Writing part of one block patches that range of the file. */
  lemma WriteIsPatch(fs: Fs, i: int, off: int, src: seq<Byte>)
    requires Conserved(fs) && 0 <= i < |fs.inodes| && 0 <= off < MAXBYTES && off % BSIZE + |src| <= BSIZE
    requires 0 < FileBlock(fs, i, off / BSIZE) < |fs.blocks|
    ensures var n := off / BSIZE;
      Patched(fs, WriteData(fs, i, n, Splice(fs.blocks[FileBlock(fs, i, n)], off % BSIZE, src)), i, off, src)
  {
    var n := off / BSIZE;
    var was := fs.blocks[FileBlock(fs, i, n)];
    var data := Splice(was, off % BSIZE, src);
    var r := WriteData(fs, i, n, data);
    forall j, k | 0 <= j < |fs.inodes| && 0 <= k < MAXBYTES
      ensures RawByte(r, j, k) == if j == i && off <= k < off + |src| then src[k - off] else RawByte(fs, j, k)
    {
      WriteKeepsBytes(fs, i, n, data, j, k);
      if j == i && k / BSIZE == n {
        assert RawByte(fs, j, k) == was[k % BSIZE];
        assert k - off == k % BSIZE - off % BSIZE;
      }
      hide RawByte, Conserved;
    }
    WriteConserves(fs, i, n, data);
    hide RawByte, Conserved, GetSlot;
  }

  // ----- blocks logged by one operation

  const BPB: int := 8 * BSIZE
  const IPB: int := 8
  const MAXOPBLOCKS: int := 10

  /** Adding one element adds at most one to the size. */
  lemma OneMore(s: set<int>, x: int)
    ensures |s + {x}| <= |s| + 1
  {
    if x in s { assert s + {x} == s; }
  }

  lemma Within(a: set<int>, b: set<int>)
    requires a <= b
    ensures |a| <= |b|
  {
    assert b == a + (b - a);
  }

  /** The indirect block of inode i and the free-map block that marks it. */
  function Indirect(fs: Fs, i: int, bmapstart: int): (s: set<int>)
    requires 0 <= i < |fs.inodes|
    ensures |s| <= 2
  {
    var a := fs.inodes[i].addrs[NDIRECT];
    if a == 0 then {} else {a, a / BPB + bmapstart}
  }

  /** How many file blocks n bytes at off touch. */
  function Touched(off: int, n: int): (r: int)
    ensures n == 0 ==> r == 0
  {
    if n == 0 then 0 else (off + n - 1) / BSIZE - off / BSIZE + 1
  }

  /** The arithmetic of the transaction limit. A chunk touches at most three blocks when it
      starts on a block boundary, and otherwise four, the first of which is there already. */
  lemma ChunkFits(off: int, n: int, maps: int)
    requires 0 <= off && 0 <= n <= 3 * BSIZE
    requires maps <= Touched(off, n)
    requires off % BSIZE != 0 && n > 0 ==> maps <= Touched(off, n) - 1
    ensures Touched(off, n) + maps + 2 + 1 <= MAXOPBLOCKS
  {
  }

  /** A set covered by the data blocks, the free-map blocks of the allocated ones, the indirect
      block with its own, and the inode's block. */
  lemma SumOfParts(logged: set<int>, data: set<int>, maps: set<int>, ind: set<int>, inode: set<int>)
    requires logged <= data + maps + ind + inode
    ensures |logged| <= |data| + |maps| + |ind| + |inode|
  {
    Within(logged, data + maps + ind + inode);
    Union(data, maps);
    Union(data + maps, ind);
    Union(data + maps + ind, inode);
  }

  lemma Union(a: set<int>, b: set<int>)
    ensures |a + b| <= |a| + |b|
  {
    assert a + b == a + (b - a);
    assert |a + (b - a)| == |a| + |b - a|;
    Within(b - a, b);
  }
}
