/** The file layer of the kernel: balloc, bfree, bmap, itrunc, readi and writei. The arrays are what
    bread returns and what log_write keeps: the free map, the blocks, the in-memory inodes and the
    inodes on disk. */
module FsHeap {

  import opened FsBits
  import opened FsModel
  import opened FsFiles

  ghost predicate Full(fs: Fs) {
    forall b :: 0 <= b < |fs.blocks| ==> InUse(fs, b)
  }

  /** When writei refuses: the offset is past the end, or the write would end past the largest file. */
  predicate Refused(off: int, n: int, size: int) {
    off > size || off + n > 71680
  }

  /** The tests of writei, with their unsigned sums, refuse exactly that. */
  lemma TestsRefuseIff(off: int, n: int, size: int)
    requires 0 <= off < UINT && 0 <= n < UINT && 0 <= size <= MAXBYTES
    ensures off > size || (off + n) % UINT < off || (off + n) % UINT > MAXBYTES <==> Refused(off, n, size)
  {
  }

  /** As many of the bytes left as the block at this offset still takes. */
  function ChunkLen(at: int, left: int): (m: int)
    requires left > 0
    ensures 0 < m <= left && at % BSIZE + m <= BSIZE
    ensures m < left ==> (at + m) % BSIZE == 0
  {
    if left < BSIZE - at % BSIZE then left else BSIZE - at % BSIZE
  }

  class FileSystem {
    const nmeta: int
    const bmapstart: int
    const inodestart: int
    const bits: array<bv8>
    const blocks: array<Block>
    const inode: array<Inode>
    const dinode: array<Inode>
    ghost var logged: set<int>

    ghost function View(): (fs: Fs)
      reads bits, blocks, inode
      ensures |fs.inodes| == inode.Length && |fs.blocks| == blocks.Length && |fs.bits| == bits.Length
    {
      Fs(nmeta, bits[..], blocks[..], inode[..])
    }

    ghost predicate Apart() {
      var a: object, b: object, c: object, d: object := bits, blocks, inode, dinode;
      a != b && a != c && a != d && b != c && b != d && c != d && dinode.Length == inode.Length
    }

    ghost predicate Valid()
      reads bits, blocks, inode
    {
      Conserved(View()) && Apart()
    }

    function MapBlock(b: int): int {
      b / BPB + bmapstart
    }

    /** A fresh disk: the metadata is marked, every inode is empty. */
    constructor (size: nat, nmeta: int, ninodes: nat, bmapstart: int, inodestart: int)
      requires 0 < nmeta <= size < UINT
      ensures Valid() && fresh(bits) && fresh(blocks) && fresh(inode) && fresh(dinode)
      ensures View().nmeta == nmeta && |View().inodes| == ninodes && |View().blocks| == size
      ensures forall i :: 0 <= i < ninodes ==> View().inodes[i].size == 0 && NoHoles(View(), i) && dinode[i] == inode[i]
    {
      this.nmeta, this.bmapstart, this.inodestart := nmeta, bmapstart, inodestart;
      bits := new bv8[size / 8 + 1](_ => 0);
      blocks := new Block[size](_ => Zeros());
      inode := new Inode[ninodes](_ => Inode(0, NoAddrs()));
      dinode := new Inode[ninodes](_ => Inode(0, NoAddrs()));
      logged := {};
      new;
      MarkMeta();
      FreshConserved(View());
    }

    method MarkMeta()
      requires 0 < nmeta <= 8 * bits.Length && forall k :: 0 <= k < bits.Length ==> bits[k] == 0
      modifies bits
      ensures forall x :: 0 <= x < 8 * bits.Length ==> (IsSet(bits[..], x) <==> x < nmeta)
    {
      hide Mask;
      var b := 0;
      while b < nmeta
        invariant 0 <= b <= nmeta
        invariant forall x :: 0 <= x < 8 * bits.Length ==> (IsSet(bits[..], x) <==> x < b)
      {
        ghost var was := bits[..];
        bits[b / 8] := bits[b / 8] | Mask(b % 8);
        assert bits[..] == SetBit(was, b);
        forall x | 0 <= x < 8 * bits.Length ensures IsSet(bits[..], x) <==> x < b + 1 { SetBitExact(was, b, x); }
        b := b + 1;
      }
    }

    // ----- blocks

    ghost method BeginOp()
      modifies this`logged
      ensures logged == {}
    {
      logged := {};
    }

    ghost method LogWrite(b: int)
      modifies this`logged
      ensures logged == old(logged) + {b}
    {
      logged := logged + {b};
    }

    /** One free-map block searched from its first bit. */
    method ScanMap(base: int) returns (bi: int)
      requires Shape(View()) && 0 <= base < blocks.Length && base % BPB == 0
      ensures 0 <= bi <= BPB && base + bi <= blocks.Length
      ensures forall x :: base <= x < base + bi ==> InUse(View(), x)
      ensures if bi < BPB && base + bi < blocks.Length then !InUse(View(), base + bi)
              else bi == BPB || base + bi == blocks.Length
    {
      hide Mask;
      bi := 0;
      while bi < BPB && base + bi < blocks.Length
        invariant 0 <= bi <= BPB && base + bi <= blocks.Length
        invariant forall x :: base <= x < base + bi ==> InUse(View(), x)
      {
        SameBit(base, bi);
        assert InUse(View(), base + bi) <==> bits[base / 8 + bi / 8] & Mask(bi % 8) != 0;
        if bits[base / 8 + bi / 8] & Mask(bi % 8) == 0 {
          return;
        }
        bi := bi + 1;
      }
    }

    /** balloc: the first free block, marked and cleared; -1 stands for the panic on a full disk. */
    method BAlloc() returns (b: int)
      requires Shape(View()) && Apart()
      modifies bits, blocks, this`logged
      ensures b == -1 ==> Full(View()) && View() == old(View()) && FirstFree(old(View()), 0) == blocks.Length
      ensures b != -1 ==> 0 <= b < blocks.Length && b == FirstFree(old(View()), 0) && View() == Claim(old(View()), b)
      ensures logged == old(logged) + if b == -1 then {} else {b / 4096 + bmapstart, b}
    {
      hide InUse, Claim;
      var base := 0;
      while base < blocks.Length
        invariant 0 <= base && base % BPB == 0
        invariant View() == old(View()) && logged == old(logged)
        invariant forall x :: 0 <= x < base && x < blocks.Length ==> InUse(View(), x)
      {
        var bi := ScanMap(base);
        if bi < BPB && base + bi < blocks.Length {
          assert FirstFree(View(), 0) == base + bi;
          SameBit(base, bi);
          Mark(base + bi, base / 8 + bi / 8, Mask(bi % 8));
          return base + bi;
        }
        base := base + BPB;
      }
      b := -1;
    }

    method Mark(b: int, at: int, m: bv8)
      requires Apart() && 0 <= b < blocks.Length <= 8 * bits.Length && at == b / 8 && m == Mask(b % 8)
      modifies bits, blocks, this`logged
      ensures View() == Claim(old(View()), b) && logged == old(logged) + {MapBlock(b), b}
    {
      hide Mask;
      bits[at] := bits[at] | m;
      assert bits[..] == SetBit(old(bits[..]), b);
      LogWrite(MapBlock(b));
      BZero(b);
    }

    method BZero(b: int)
      requires 0 <= b < blocks.Length
      modifies blocks, this`logged
      ensures blocks[..] == old(blocks[..])[b := Zeros()] && logged == old(logged) + {b}
    {
      blocks[b] := Zeros();
      LogWrite(b);
    }

    /** bfree: its panic is a precondition, and Itrunc shows that it never happens there. */
    method BFree(b: int)
      requires Apart() && InUse(View(), b)
      modifies bits, this`logged
      ensures bits[..] == ClearBit(old(bits[..]), b) && logged == old(logged) + {b / 4096 + bmapstart}
    {
      bits[b / 8] := bits[b / 8] & !Mask(b % 8);
      LogWrite(MapBlock(b));
    }

    // ----- the block map

    /** A direct slot, or the slot that names the indirect block. */
    method FillDirect(i: int, s: int) returns (a: int)
      requires Valid() && 0 <= i < inode.Length && 0 <= s <= NDIRECT
      modifies bits, blocks, inode, this`logged
      ensures a != -1 ==> Fill(old(View()), i, s) == Done(View()) && a == GetSlot(View(), i, s)
      ensures a == -1 ==> Full(View()) && GetSlot(old(View()), i, s) == 0
      ensures a == -1 || logged ==
         old(logged) + if GetSlot(old(View()), i, s) == 0 then {MapBlock(a), a} else {}
    {
      ghost var was := View();
      SlotNotNegative(was, i, s);
      a := inode[i].addrs[s];
      if a == 0 {
        a := BAlloc();
        if a == -1 { return; }
        inode[i] := inode[i].(addrs := inode[i].addrs[s := a]);
        assert View().inodes == was.inodes[i := inode[i]];
        assert View() == AllocSlot(was, i, s, a);
      }
    }

    /** A word of the indirect block. */
    method FillIndirect(i: int, s: int) returns (a: int)
      requires Valid() && 0 <= i < inode.Length && NDIRECT < s < NSLOTS
      requires 0 < inode[i].addrs[NDIRECT] < blocks.Length
      modifies bits, blocks, this`logged
      ensures a != -1 ==> Fill(old(View()), i, s) == Done(View()) && a == GetSlot(View(), i, s)
      ensures a == -1 ==> Full(View()) && GetSlot(old(View()), i, s) == 0
      ensures a == -1 || logged ==
        old(logged) + if GetSlot(old(View()), i, s) == 0 then {MapBlock(a), a, inode[i].addrs[NDIRECT]} else {}
    {
      hide IsSet, SetBit, Word, PutWord;
      ghost var was := View();
      var ind := inode[i].addrs[NDIRECT];
      a := Word(blocks[ind], s - NDIRECT - 1);
      if a == 0 {
        a := BAlloc();
        if a == -1 { return; }
        ghost var mid := View();
        assert mid == Claim(was, a);
        blocks[ind] := PutWord(blocks[ind], s - NDIRECT - 1, a);
        LogWrite(ind);
        assert View() == PutSlot(mid, i, s, a);
        AllocOneSlot(was, i, s, a, i, s);
      }
    }

    /** bmap past the direct blocks. */
    method MapIndirect(i: int, n: int) returns (a: int)
      requires Valid() && 0 <= i < inode.Length && NDIRECT <= n < MAXFILE
      modifies bits, blocks, inode, this`logged
      ensures a != -1 ==> Bmap(old(View()), i, n) == Done(View()) && a == FileBlock(View(), i, n)
      ensures a == -1 ==> Full(View()) && FileBlock(old(View()), i, n) == 0
      ensures FileBlock(old(View()), i, n) != 0 ==> logged == old(logged)
      ensures a == -1 || logged <=
        old(logged) + Indirect(View(), i, bmapstart) + if FileBlock(old(View()), i, n) == 0 then {MapBlock(a), a} else {}
    {
      ghost var was := View();
      hide Conserved, Grown, Fill, GetSlot, Full;
      FillGrows(was, i, NDIRECT);
      NeedsIndirect(was, i, n + 1);
      a := FillDirect(i, NDIRECT);
      if a != -1 {
        ghost var mid := View();
        NeedsIndirect(mid, i, n + 1);
        FillGrows(mid, i, n + 1);
        FillOther(was, i, n + 1);
        a := FillIndirect(i, n + 1);
        if a != -1 { NeedsIndirect(View(), i, n + 1); }
      }
    }

    /** bmap: what file block n is on disk, allocated if missing. A caller that stays below MAXFILE
        does not meet its last panic. */
    method BMap(i: int, n: int) returns (a: int)
      requires Valid() && 0 <= i < inode.Length && 0 <= n < MAXFILE
      modifies bits, blocks, inode, this`logged
      ensures a != -1 ==> Grown(old(View()), View(), i) && a == FileBlock(View(), i, n) && 0 < a < blocks.Length
      ensures a != -1 ==>
        if n < 12 then a == inode[i].addrs[n]
        else 0 < inode[i].addrs[12] < blocks.Length && a == Word(blocks[inode[i].addrs[12]], n - 12)
      ensures a == -1 ==> Full(View())
      ensures FileBlock(old(View()), i, n) != 0 ==> a != -1 && View() == old(View()) && logged == old(logged)
      ensures a == -1 || logged <=
        old(logged) + Indirect(View(), i, bmapstart) + if FileBlock(old(View()), i, n) == 0 then {MapBlock(a), a} else {}
    {
      BmapGrows(View(), i, n);
      hide Conserved, Grown, Fill, GetSlot, Full;
      if n < NDIRECT {
        a := FillDirect(i, n);
      } else {
        a := MapIndirect(i, n);
      }
      if a != -1 { BlockAddress(View(), i, n); }
    }

    // ----- reading and writing

    method IUpdate(i: int)
      requires 0 <= i < inode.Length && Apart()
      modifies dinode, this`logged
      ensures dinode[..] == old(dinode[..])[i := inode[i]] && logged == old(logged) + {i / 8 + inodestart}
    {
      dinode[i] := inode[i];
      LogWrite(i / IPB + inodestart);
    }

    /** One turn of the loop in writei: part of one block. */
    method WriteChunk(i: int, off: int, src: seq<Byte>) returns (ok: bool)
      requires Valid() && 0 <= i < inode.Length && 0 <= off < MAXBYTES && off % BSIZE + |src| <= BSIZE
      modifies bits, blocks, inode, this`logged
      ensures ok ==> Valid() && Patched(old(View()), View(), i, off, src)
      ensures ok ==> inode[i].size == old(inode[i].size) && FileBlock(View(), i, off / BSIZE) != 0
      ensures FileBlock(old(View()), i, off / BSIZE) != 0 ==> ok && inode[..] == old(inode[..])
      ensures !ok ==> Full(View())
      ensures !ok || logged <= old(logged) + Indirect(View(), i, bmapstart) + {FileBlock(View(), i, off / BSIZE)}
        + if FileBlock(old(View()), i, off / BSIZE) == 0 then {MapBlock(FileBlock(View(), i, off / BSIZE))} else {}
    {
      hide Conserved, Grown, Patched, GetSlot, Full, Splice;
      ghost var was := View();
      var n := off / BSIZE;
      var a := BMap(i, n);
      if a == -1 { return false; }
      ghost var mid := View();
      ChunkPatches(was, mid, i, off, src);
      blocks[a] := Splice(blocks[a], off % BSIZE, src);
      LogWrite(a);
      assert View() == WriteData(mid, i, n, blocks[a]);
      ok := true;
    }

    /** The next block of a write that has got as far as tot. */
    method WriteNext(i: int, src: seq<Byte>, off: int, tot: int, ghost was: Fs, ghost base: set<int>, ghost spent: Spent)
      returns (ok: bool, m: int, ghost more: Spent)
      requires Valid() && |was.inodes| == inode.Length && 0 <= i < inode.Length
      requires 0 <= off <= was.inodes[i].size && 0 <= tot < |src| && off + |src| <= MAXBYTES
      requires Progress(was, View(), i, off, src, tot)
      requires Budget(Spare(was, i, off), Indirect(View(), i, bmapstart), Touched(off, tot), base, logged, spent)
      modifies bits, blocks, inode, this`logged
      ensures 0 < m <= |src| - tot
      ensures NoHoles(was, i) && off + |src| <= was.inodes[i].size ==> ok
      ensures ok ==> Valid() && Progress(was, View(), i, off, src, tot + m)
      ensures ok ==>
        Budget(Spare(was, i, off), Indirect(View(), i, bmapstart), Touched(off, tot + m), base, logged, more)
      ensures !ok ==> Full(View())
    {
      hide Conserved, Full, Indirect, Progress, Budget, NoHoles, FileBlock, Patched, ChunkLen, Touched;
      m := ChunkLen(off + tot, |src| - tot);
      more := spent;
      ProgressPresent(was, View(), i, off, src, tot);
      ok := WriteChunk(i, off + tot, src[tot..tot + m]);
      if ok {
        ProgressNext(was, old(View()), View(), i, off, src, tot, m);
        TouchedNext(off, tot, m);
        ghost var q, a := (off + tot) / BSIZE, FileBlock(View(), i, (off + tot) / BSIZE);
        more := BudgetNext(Spare(was, i, off), Indirect(old(View()), i, bmapstart), Indirect(View(), i, bmapstart),
                           Touched(off, tot), a, MapBlock(a), FileBlock(old(View()), i, q) == 0,
                           base, old(logged), logged, spent);
      }
    }

    /** The loop of writei, with what it logs. */
    method WriteLoop(i: int, src: seq<Byte>, off: int) returns (ok: bool)
      requires Valid() && 0 <= i < inode.Length && 0 <= off <= inode[i].size && off + |src| <= MAXBYTES
      modifies bits, blocks, inode, this`logged
      ensures NoHoles(old(View()), i) && off + |src| <= old(inode[i].size) ==> ok
      ensures ok ==> Valid() && Progress(old(View()), View(), i, off, src, |src|)
      ensures !ok ==> Full(View())
      ensures ok && NoHoles(old(View()), i) && |src| <= 3 * BSIZE && old(logged) == {} ==> |logged| < MAXOPBLOCKS
    {
      ghost var was := View();
      var tot, m := 0, 0;
      ghost var spent := Spent({}, {});
      ProgressStarts(was, i, off, src);
      hide Conserved, Full, Indirect, Progress, Budget, NoHoles;
      while tot < |src|
        invariant 0 <= tot <= |src| && Valid() && Progress(was, View(), i, off, src, tot)
        invariant Budget(Spare(was, i, off), Indirect(View(), i, bmapstart), Touched(off, tot), old(logged), logged, spent)
      {
        ok, m, spent := WriteNext(i, src, off, tot, was, old(logged), spent);
        if !ok { return; }
        tot := tot + m;
      }
      ok := true;
      if NoHoles(was, i) && |src| <= 3 * BSIZE && old(logged) == {} {
        BudgetFits(Indirect(View(), i, bmapstart), off, |src|, logged, spent);
      }
    }

    /** writei. A write is refused, or the file is overwritten from off, its size grows to the end
        of the write, and every other file stays. In a file without holes the inode on disk stays
        up to date, and a write of at most three blocks' bytes logs at most ten blocks. */
    method WriteI(i: int, src: seq<Byte>, off: int) returns (r: int, ok: bool)
      requires Valid() && 0 <= i < inode.Length && 0 <= off < UINT && |src| < UINT
      modifies bits, blocks, inode, dinode, this`logged
      ensures !ok ==> Full(View())
      ensures NoHoles(old(View()), i) && off + |src| <= old(inode[i].size) ==> ok
      ensures ok ==> (r == -1 <==> off > old(inode[i].size) || off + |src| > 71680)
      ensures ok && r == -1 ==> View() == old(View()) && logged == old(logged)
      ensures ok && r != -1 ==> r == |src| && Written(old(View()), View(), i, off, src)
      ensures ok && r != -1 ==>
        inode[i].size == if old(inode[i].size) < off + |src| then off + |src| else old(inode[i].size)
      ensures ok ==> Valid() && (NoHoles(old(View()), i) ==> NoHoles(View(), i))
      ensures ok && NoHoles(old(View()), i) && old(dinode[i] == inode[i]) ==> dinode[i] == inode[i]
      ensures ok ==> forall j :: 0 <= j < inode.Length && j != i ==> dinode[j] == old(dinode[j])
      ensures ok && NoHoles(old(View()), i) && |src| <= 3 * BSIZE && old(logged) == {} ==> |logged| <= MAXOPBLOCKS
    {
      hide Conserved, Full, NoHoles, Patched, Progress;
      var size := inode[i].size;
      TestsRefuseIff(off, |src|, size);
      if off > size || (off + |src|) % UINT < off { return -1, true; }
      if (off + |src|) % UINT > MAXBYTES { return -1, true; }
      NotWrapped(off, |src|, View(), i);
      ok := WriteLoop(i, src, off);
      r := |src|;
      if !ok { return; }
      ghost var mid := View();
      ProgressSize(old(View()), mid, i, off, src);
      if |src| > 0 && off + |src| > inode[i].size {
        inode[i] := inode[i].(size := off + |src|);
        assert View().inodes == mid.inodes[i := inode[i]];
        IUpdate(i);
        OneMore(logged - {i / IPB + inodestart}, i / IPB + inodestart);
      }
      assert View() == Resized(mid, i, Max(size, off + |src|));
      WriteDone(old(View()), mid, i, off, src);
    }

    /** One turn of the loop in readi. */
    method ReadChunk(i: int, off: int, m: int) returns (dst: seq<Byte>, ok: bool)
      requires Valid() && 0 <= i < inode.Length && 0 <= off < MAXBYTES && 0 <= m && off % BSIZE + m <= BSIZE
      modifies bits, blocks, inode, this`logged
      ensures ok ==> Grown(old(View()), View(), i)
      ensures ok ==> |dst| == m && ReadSo(old(View()), i, off, dst)
      ensures !ok ==> Full(View())
      ensures FileBlock(old(View()), i, off / BSIZE) != 0 ==> ok && View() == old(View()) && logged == old(logged)
    {
      hide Conserved, Full, GetSlot, FileBlock;
      var a := BMap(i, off / BSIZE);
      if a == -1 { return [], false; }
      dst, ok := blocks[a][off % BSIZE..off % BSIZE + m], true;
      forall k | 0 <= k < m && off + k < MAXBYTES ensures dst[k] == RawByte(old(View()), i, off + k) {
        assert (off + k) / BSIZE == off / BSIZE && (off + k) % BSIZE == off % BSIZE + k;
        assert dst[k] == RawByte(View(), i, off + k);
      }
    }

    /** The loop of readi. */
    method ReadLoop(i: int, off: int, n: int) returns (dst: seq<Byte>, ok: bool)
      requires Valid() && 0 <= i < inode.Length && 0 <= off && 0 <= n && off + n <= inode[i].size
      modifies bits, blocks, inode, this`logged
      ensures !ok ==> Full(View())
      ensures ok ==> Grown(old(View()), View(), i) && ReadSo(old(View()), i, off, dst) && |dst| == n
      ensures NoHoles(old(View()), i) ==> ok && View() == old(View()) && logged == old(logged)
    {
      ghost var was := View();
      GrownNothing(was, i);
      hide Conserved, Full, NoHoles, FileBlock, RawByte, Grown, ChunkLen, ReadSo;
      dst, ok := [], true;
      while |dst| < n
        invariant ok && |dst| <= n
        invariant Valid() && Grown(was, View(), i) && ReadSo(was, i, off, dst)
        invariant NoHoles(was, i) ==> View() == was && logged == old(logged)
      {
        ghost var mid := View();
        var m := ChunkLen(off + |dst|, n - |dst|);
        var piece;
        BlockThere(was, i, off + |dst|);
        piece, ok := ReadChunk(i, off + |dst|, m);
        if !ok { return; }
        ReadNext(was, mid, View(), i, off, dst, piece);
        dst := dst + piece;
      }
    }

    /** readi: the wanted slice of the file, cut at its size; no byte of any file changes, and in a
        file without holes nothing changes at all. */
    method ReadI(i: int, off: int, n: int) returns (r: int, dst: seq<Byte>, ok: bool)
      requires Valid() && 0 <= i < inode.Length && 0 <= off < UINT && 0 <= n < UINT
      modifies bits, blocks, inode, this`logged
      ensures !ok ==> Full(View())
      ensures ok ==> Grown(old(View()), View(), i)
      ensures ok ==> (r == -1 <==> off > old(inode[i].size) || off + n >= 0x1_0000_0000)
      ensures ok && r == -1 ==> dst == [] && View() == old(View())
      ensures ok && r != -1 ==>
        && 0 <= r == (if n < old(inode[i].size) - off then n else old(inode[i].size) - off)
        && dst == Contents(old(View()), i)[off..off + r]
      ensures NoHoles(old(View()), i) ==> ok && View() == old(View()) && logged == old(logged)
    {
      ghost var was := View();
      GrownNothing(was, i);
      hide Conserved, Full, NoHoles, FileBlock, RawByte, Grown, ReadSo, Contents;
      var size := inode[i].size;
      if off > size || (off + n) % UINT < off { return -1, [], true; }
      Unwrapped(off, n);
      r := if (off + n) % UINT > size then size - off else n;
      dst, ok := ReadLoop(i, off, r);
      if ok { ReadSlice(was, i, off, dst); }
    }

    // ----- truncation

    /** itrunc: each block of the file is freed exactly once, so bfree's panic is not met. */
    method ITrunc(i: int)
      requires Valid() && 0 <= i < inode.Length
      modifies bits, inode, dinode, this`logged
      ensures Valid() && Truncated(old(View()), View(), i)
      ensures dinode[..] == old(dinode[..])[i := inode[i]]
    {
      ghost var was := View();
      FreeNone(was, i);
      hide Conserved, Freeing;
      FreeDirect(i);
      if inode[i].addrs[NDIRECT] != 0 {
        FreeIndirect(i, was);
        inode[i] := inode[i].(addrs := inode[i].addrs[NDIRECT := 0]);
      } else {
        NoIndirect(was, View().bits, i);
      }
      inode[i] := inode[i].(size := 0);
      assert inode[i].addrs == NoAddrs();
      assert View().inodes == was.inodes[i := Inode(0, NoAddrs())];
      FreedAll(was, View(), i);
      TruncationConserves(was, View(), i);
      IUpdate(i);
    }

    method FreeDirect(i: int)
      requires Valid() && 0 <= i < inode.Length
      modifies bits, inode, this`logged
      ensures Freeing(old(View()), bits[..], i, NDIRECT, false)
      ensures inode[..] == old(inode[..])[i := inode[i]]
      ensures inode[i].size == old(inode[i].size) && inode[i].addrs[NDIRECT] == old(inode[i].addrs[NDIRECT])
      ensures forall s :: 0 <= s < NDIRECT ==> inode[i].addrs[s] == 0
    {
      ghost var was := View();
      FreeNone(was, i);
      hide Conserved, Freeing;
      var s := 0;
      while s < NDIRECT
        invariant 0 <= s <= NDIRECT && Freeing(was, bits[..], i, s, false)
        invariant inode[..] == was.inodes[i := inode[i]] && inode[i].size == was.inodes[i].size
        invariant forall t :: 0 <= t <= NDIRECT ==> inode[i].addrs[t] == if t < s then 0 else was.inodes[i].addrs[t]
      {
        FreeNext(was, bits[..], i, s);
        if inode[i].addrs[s] != 0 {
          BFree(inode[i].addrs[s]);
          inode[i] := inode[i].(addrs := inode[i].addrs[s := 0]);
        }
        s := s + 1;
      }
    }

    method FreeIndirect(i: int, ghost was: Fs)
      requires Apart() && Conserved(was) && 0 <= i < inode.Length == |was.inodes| && blocks[..] == was.blocks
      requires inode[i].addrs[NDIRECT] == was.inodes[i].addrs[NDIRECT] != 0
      requires Freeing(was, bits[..], i, NDIRECT, false)
      modifies bits, this`logged
      ensures Freeing(was, bits[..], i, MAXFILE, true)
    {
      IndirectInRange(was, i);
      hide Conserved, Freeing;
      var ind := inode[i].addrs[NDIRECT];
      var j := 0;
      while j < NINDIRECT
        invariant 0 <= j <= NINDIRECT && Freeing(was, bits[..], i, NDIRECT + j, false)
      {
        FreeNext(was, bits[..], i, NDIRECT + j);
        assert Word(blocks[ind], j) == FileBlock(was, i, NDIRECT + j);
        if Word(blocks[ind], j) != 0 {
          BFree(Word(blocks[ind], j));
        }
        j := j + 1;
      }
      FreeLast(was, bits[..], i);
      BFree(ind);
    }
  }

  /** What writei has written readi reads back, unless the disk is full or the write is refused. */
  method WriteThenRead(fs: FileSystem, i: int, src: seq<Byte>, off: int) returns (dst: seq<Byte>, ok: bool)
    requires fs.Valid() && 0 <= i < fs.inode.Length && 0 <= off < UINT && |src| < UINT
    modifies fs.bits, fs.blocks, fs.inode, fs.dinode, fs`logged
    ensures !ok ==> Full(fs.View())
    ensures ok ==> dst == if off > old(fs.inode[i].size) || off + |src| > 71680 then [] else src
  {
    hide Conserved, Full, NoHoles, Patched, Contents, Overwrite, Grown;
    ghost var was := fs.View();
    var r;
    r, ok := fs.WriteI(i, src, off);
    if !ok || r == -1 { return [], ok; }
    ghost var now := fs.View();
    NotWrapped(off, |src|, was, i);
    PatchOverwrites(was, now, i, off, src);
    ReadAfterWrite(Contents(was, i), off, src);
    r, dst, ok := fs.ReadI(i, off, |src|);
  }

  /** Twelve direct addresses, and 128 more in the block that the thirteenth names. */
  lemma BlockAddress(fs: Fs, i: int, n: int)
    requires 0 <= i < |fs.inodes| && 0 <= n < MAXFILE && FileBlock(fs, i, n) != 0
    ensures MAXFILE == 140 && var a := fs.inodes[i].addrs;
      if n < 12 then FileBlock(fs, i, n) == a[n]
      else 0 < a[12] < |fs.blocks| && FileBlock(fs, i, n) == Word(fs.blocks[a[12]], n - 12)
  {
  }

  lemma GrownNothing(fs: Fs, i: int)
    requires Conserved(fs) && 0 <= i < |fs.inodes|
    ensures Grown(fs, fs, i)
  {
  }

  /** The block of a byte below the size of a file without holes. */
  lemma BlockThere(fs: Fs, i: int, k: int)
    requires 0 <= i < |fs.inodes| && 0 <= k < MAXBYTES
    ensures NoHoles(fs, i) && k < fs.inodes[i].size ==> FileBlock(fs, i, k / BSIZE) != 0
  {
    hide GetSlot;
    if NoHoles(fs, i) && k < fs.inodes[i].size { assert FileBlock(fs, i, k / BSIZE) != 0; }
  }

  /** What has been read so far is what the file holds from off. */
  ghost predicate ReadSo(fs: Fs, i: int, off: int, dst: seq<Byte>)
    requires 0 <= i < |fs.inodes| && 0 <= off
    ensures dst == [] ==> ReadSo(fs, i, off, dst)
  {
    forall k :: 0 <= k < |dst| && off + k < MAXBYTES ==> dst[k] == RawByte(fs, i, off + k)
  }

  lemma ReadSlice(fs: Fs, i: int, off: int, dst: seq<Byte>)
    requires Shape(fs) && 0 <= i < |fs.inodes| && 0 <= off && off + |dst| <= fs.inodes[i].size && ReadSo(fs, i, off, dst)
    ensures dst == Contents(fs, i)[off..off + |dst|]
  {
    hide RawByte;
  }

  lemma Unwrapped(off: int, n: int)
    requires 0 <= off < UINT && 0 <= n < UINT && (off + n) % UINT >= off
    ensures (off + n) % UINT == off + n
  {
  }

  lemma ReadNext(was: Fs, mid: Fs, now: Fs, i: int, off: int, dst: seq<Byte>, piece: seq<Byte>)
    requires 0 <= i < |was.inodes| && Grown(was, mid, i) && Grown(mid, now, i)
    requires 0 <= off && ReadSo(was, i, off, dst) && ReadSo(mid, i, off + |dst|, piece)
    ensures Grown(was, now, i) && ReadSo(was, i, off, dst + piece)
  {
    GrownTwice(was, mid, now, i);
    hide RawByte, Conserved, GetSlot;
    forall k | 0 <= k < |dst + piece| && off + k < MAXBYTES ensures (dst + piece)[k] == RawByte(was, i, off + k) {
      if k >= |dst| { assert RawByte(mid, i, off + |dst| + (k - |dst|)) == RawByte(was, i, off + k); }
    }
  }

  /** The marks of the first q data blocks of file i, and with last of its indirect block too,
      are gone, and no others. */
  ghost predicate Freeing(was: Fs, bits: seq<bv8>, i: int, q: int, last: bool)
    requires 0 <= i < |was.inodes| && 0 <= q <= MAXFILE
    ensures Freeing(was, bits, i, q, last) ==> |bits| == |was.bits|
  {
    && |bits| == |was.bits| && |was.blocks| <= 8 * |bits|
    && forall x :: 0 <= x < |was.blocks| ==> (IsSet(bits, x) <==>
         IsSet(was.bits, x) && !(x != 0 && (Among(was, i, q, x) || (last && was.inodes[i].addrs[NDIRECT] == x))))
  }

  lemma FreeNone(was: Fs, i: int)
    requires Conserved(was) && 0 <= i < |was.inodes|
    ensures Freeing(was, was.bits, i, 0, false)
  {
  }

  /** The next data block is still marked when its turn comes. */
  lemma FreeNext(was: Fs, bits: seq<bv8>, i: int, q: int)
    requires Conserved(was) && 0 <= i < |was.inodes| && 0 <= q < MAXFILE && Freeing(was, bits, i, q, false)
    ensures var a := FileBlock(was, i, q);
      if a == 0 then Freeing(was, bits, i, q + 1, false)
      else 0 <= a < |was.blocks| && a < 8 * |bits| && IsSet(bits, a) && Freeing(was, ClearBit(bits, a), i, q + 1, false)
  {
    var a := FileBlock(was, i, q);
    AmongNext(was, i, q);
    if a != 0 {
      SlotInUse(was, i, DataSlot(q));
      assert forall n :: 0 <= n < q ==> FileBlock(was, i, n) != a;
      forall x | 0 <= x < |was.blocks| ensures IsSet(ClearBit(bits, a), x) <==> x != a && IsSet(bits, x) {
        ClearBitExact(bits, a, x);
      }
      hide IsSet, ClearBit, Conserved, GetSlot, Among;
      assert Freeing(was, ClearBit(bits, a), i, q + 1, false);
    }
  }

  lemma AmongNext(fs: Fs, i: int, q: int)
    requires 0 <= i < |fs.inodes| && 0 <= q < MAXFILE
    ensures forall x :: Among(fs, i, q + 1, x) <==> Among(fs, i, q, x) || FileBlock(fs, i, q) == x
  {
    hide GetSlot;
    forall x ensures Among(fs, i, q + 1, x) <==> Among(fs, i, q, x) || FileBlock(fs, i, q) == x {
      if FileBlock(fs, i, q) == x { assert Among(fs, i, q + 1, x); }
    }
  }

  lemma FreeLast(was: Fs, bits: seq<bv8>, i: int)
    requires Conserved(was) && 0 <= i < |was.inodes| && Freeing(was, bits, i, MAXFILE, false)
    requires was.inodes[i].addrs[NDIRECT] != 0
    ensures var a := was.inodes[i].addrs[NDIRECT];
      0 <= a < |was.blocks| && a < 8 * |bits| && IsSet(bits, a) && Freeing(was, ClearBit(bits, a), i, MAXFILE, true)
  {
    var a := GetSlot(was, i, NDIRECT);
    SlotInUse(was, i, NDIRECT);
    assert forall n :: 0 <= n < MAXFILE ==> FileBlock(was, i, n) != a;
    forall x | 0 <= x < |was.blocks| ensures IsSet(ClearBit(bits, a), x) <==> x != a && IsSet(bits, x) {
      ClearBitExact(bits, a, x);
    }
    hide IsSet, ClearBit, Conserved, Among;
    assert Freeing(was, ClearBit(bits, a), i, MAXFILE, true);
  }

  /** Without an indirect block there is nothing past the direct ones. */
  lemma NoIndirect(was: Fs, bits: seq<bv8>, i: int)
    requires 0 <= i < |was.inodes| && was.inodes[i].addrs[NDIRECT] == 0 && Freeing(was, bits, i, NDIRECT, false)
    ensures Freeing(was, bits, i, MAXFILE, true)
  {
    forall x | x != 0 ensures Among(was, i, MAXFILE, x) <==> Among(was, i, NDIRECT, x) {
      if Among(was, i, MAXFILE, x) {
        var n :| 0 <= n < MAXFILE && FileBlock(was, i, n) == x;
        assert n < NDIRECT;
      }
    }
    hide Among, IsSet;
  }

  lemma FreedAll(was: Fs, now: Fs, i: int)
    requires 0 <= i < |was.inodes| && Freeing(was, now.bits, i, MAXFILE, true)
    requires now.nmeta == was.nmeta && now.blocks == was.blocks && now.inodes == was.inodes[i := Inode(0, NoAddrs())]
    ensures Truncated(was, now, i)
  {
    hide Among, IsSet;
  }

  function Resized(fs: Fs, i: int, size: int): Fs
    requires 0 <= i < |fs.inodes|
  {
    fs.(inodes := fs.inodes[i := fs.inodes[i].(size := size)])
  }

  /** What a completed write leaves behind. */
  ghost predicate Written(was: Fs, now: Fs, i: int, off: int, src: seq<Byte>)
    requires 0 <= i < |was.inodes| && 0 <= off
  {
    && Patched(was, now, i, off, src)
    && now.inodes[i].size == Max(was.inodes[i].size, off + |src|)
  }

  lemma NotWrapped(off: int, n: int, fs: Fs, i: int)
    requires Conserved(fs) && 0 <= i < |fs.inodes| && 0 <= off < UINT && 0 <= n < UINT
    requires !Refused(off, n, fs.inodes[i].size)
    ensures off + n <= MAXBYTES && off <= fs.inodes[i].size
  {
    hide Conserved;
  }

  lemma ProgressSize(was: Fs, now: Fs, i: int, off: int, src: seq<Byte>)
    requires 0 <= i < |was.inodes| && 0 <= off && Progress(was, now, i, off, src, |src|)
    ensures now.inodes[i].size == was.inodes[i].size
    ensures NoHoles(was, i) && off + |src| <= was.inodes[i].size ==> now.inodes == was.inodes
    ensures forall j :: 0 <= j < |was.inodes| && j != i ==> now.inodes[j] == was.inodes[j]
  {
    hide Conserved, NoHoles, Covered, GetSlot, RawByte;
  }

  lemma WriteDone(was: Fs, mid: Fs, i: int, off: int, src: seq<Byte>)
    requires 0 <= i < |was.inodes| && 0 <= off <= was.inodes[i].size && off + |src| <= MAXBYTES
    requires Progress(was, mid, i, off, src, |src|)
    ensures var now := Resized(mid, i, Max(was.inodes[i].size, off + |src|));
      Conserved(now) && Written(was, now, i, off, src) && (NoHoles(was, i) ==> NoHoles(now, i))
  {
    assert src[..|src|] == src;
    var now := Resized(mid, i, Max(was.inodes[i].size, off + |src|));
    ResizeKeeps(mid, i, Max(was.inodes[i].size, off + |src|));
    hide Conserved, GetSlot, RawByte;
    assert Patched(was, now, i, off, src);
    if NoHoles(was, i) {
      forall n | 0 <= n < MAXFILE && n * BSIZE < now.inodes[i].size ensures FileBlock(now, i, n) != 0 {
        if n * BSIZE < was.inodes[i].size { assert FileBlock(was, i, n) != 0; } else { assert FileBlock(mid, i, n) != 0; }
      }
    }
  }

  lemma ResizeKeeps(fs: Fs, i: int, size: int)
    requires Conserved(fs) && 0 <= i < |fs.inodes| && 0 <= size <= MAXBYTES
    ensures Conserved(Resized(fs, i, size))
    ensures forall j, t :: 0 <= j < |fs.inodes| && 0 <= t < NSLOTS ==> GetSlot(Resized(fs, i, size), j, t) == GetSlot(fs, j, t)
    ensures forall j, k :: 0 <= j < |fs.inodes| && 0 <= k < MAXBYTES ==>
      RawByte(Resized(fs, i, size), j, k) == RawByte(fs, j, k)
  {
    var r := Resized(fs, i, size);
    assert forall j, t :: 0 <= j < |fs.inodes| && 0 <= t < NSLOTS ==> GetSlot(r, j, t) == GetSlot(fs, j, t);
    assert forall x :: InUse(r, x) <==> InUse(fs, x);
    hide GetSlot, InUse;
    SameSlotsConserve(fs, r);
  }

  /** How far writei has got: the first tot bytes of src are in place. */
  ghost predicate Progress(was: Fs, now: Fs, i: int, off: int, src: seq<Byte>, tot: int)
    requires 0 <= i < |was.inodes| && 0 <= off && 0 <= tot <= |src|
    ensures Progress(was, now, i, off, src, tot) ==>
      Conserved(now) && |now.inodes| == |was.inodes| && (0 < tot < |src| ==> (off + tot) % BSIZE == 0)
  {
    && (0 < tot < |src| ==> (off + tot) % BSIZE == 0)
    && Conserved(now)
    && Patched(was, now, i, off, src[..tot])
    && now.inodes[i].size == was.inodes[i].size
    && Covered(now, i, off, tot)
    && (NoHoles(was, i) && off + |src| <= was.inodes[i].size ==> now.inodes == was.inodes)
  }

  /** The block at off is there before the write. */
  ghost predicate Spare(fs: Fs, i: int, off: int)
    requires 0 <= i < |fs.inodes|
  {
    NoHoles(fs, i) && off % BSIZE != 0
  }

  /** The data blocks written so far, and the free-map blocks changed for those allocated. */
  datatype Spent = Spent(data: set<int>, maps: set<int>)

  /** What is logged so far is accounted for; a write that starts inside a block of a file
      without holes need not allocate that block. */
  ghost predicate Budget(spare: bool, ind: set<int>, touched: int, base: set<int>, logged: set<int>, spent: Spent) {
    && logged <= base + spent.data + spent.maps + ind
    && |spent.data| <= touched && |spent.maps| <= touched
    && (touched > 0 && spare ==> |spent.maps| <= touched - 1)
  }

  lemma ProgressStarts(fs: Fs, i: int, off: int, src: seq<Byte>)
    requires Conserved(fs) && 0 <= i < |fs.inodes| && 0 <= off
    ensures Progress(fs, fs, i, off, src, 0)
  {
    hide Conserved, Patched;
    PatchNothing(fs, i, off);
  }

  lemma ProgressPresent(was: Fs, mid: Fs, i: int, off: int, src: seq<Byte>, tot: int)
    requires 0 <= i < |was.inodes| && 0 <= off && 0 <= tot < |src| && off + |src| <= MAXBYTES
    requires Progress(was, mid, i, off, src, tot)
    ensures NoHoles(was, i) && off + |src| <= was.inodes[i].size ==> FileBlock(mid, i, (off + tot) / BSIZE) != 0
  {
    hide Conserved, Patched, Covered, NoHoles, GetSlot;
    Present(was, mid, i, off, src[..tot], (off + tot) / BSIZE);
  }

  lemma ProgressNext(was: Fs, mid: Fs, now: Fs, i: int, off: int, src: seq<Byte>, tot: int, m: int)
    requires 0 <= i < |was.inodes| && 0 <= off && 0 <= tot < tot + m <= |src| && off + |src| <= MAXBYTES
    requires (off + tot) % BSIZE + m <= BSIZE
    requires tot + m < |src| ==> (off + tot + m) % BSIZE == 0
    requires Progress(was, mid, i, off, src, tot) && Conserved(now)
    requires Patched(mid, now, i, off + tot, src[tot..tot + m]) && now.inodes[i].size == mid.inodes[i].size
    requires FileBlock(now, i, (off + tot) / BSIZE) != 0
    requires FileBlock(mid, i, (off + tot) / BSIZE) != 0 ==> now.inodes == mid.inodes
    ensures Progress(was, now, i, off, src, tot + m)
    ensures forall b :: Indirect(mid, i, b) <= Indirect(now, i, b)
    ensures Spare(was, i, off) && tot == 0 && off <= was.inodes[i].size ==> FileBlock(mid, i, off / BSIZE) != 0
  {
    hide Conserved, Patched, Covered, NoHoles, GetSlot;
    assert src[..tot + m] == src[..tot] + src[tot..tot + m];
    PatchTwice(was, mid, now, i, off, src[..tot], src[tot..tot + m]);
    PatchCovers(mid, now, i, off, tot, src[tot..tot + m]);
    Present(was, mid, i, off, src[..tot], (off + tot) / BSIZE);
  }

  lemma BudgetNext(spare: bool, ind: set<int>, more: set<int>, touched: int, a: int, mapBlock: int, isNew: bool,
                   base: set<int>, before: set<int>, after: set<int>, spent: Spent) returns (r: Spent)
    requires 0 <= touched && ind <= more && Budget(spare, ind, touched, base, before, spent)
    requires after <= before + more + {a} + if isNew then {mapBlock} else {}
    requires touched == 0 && spare ==> !isNew
    ensures Budget(spare, more, touched + 1, base, after, r)
  {
    OneMore(spent.data, a);
    OneMore(spent.maps, mapBlock);
    r := if isNew then Spent(spent.data + {a}, spent.maps + {mapBlock}) else Spent(spent.data + {a}, spent.maps);
  }

  lemma BudgetFits(ind: set<int>, off: int, n: int, logged: set<int>, spent: Spent)
    requires 0 <= off && 0 <= n <= 3 * BSIZE && |ind| <= 2
    requires Budget(off % BSIZE != 0, ind, Touched(off, n), {}, logged, spent)
    ensures |logged| < MAXOPBLOCKS
  {
    ChunkFits(off, n, |spent.maps|);
    SumOfParts(logged, spent.data, spent.maps, ind, {});
  }

  /** Every file block that n bytes at off touch is there. */
  ghost predicate Covered(fs: Fs, i: int, off: int, n: int)
    requires 0 <= i < |fs.inodes| && 0 <= off
    ensures n == 0 ==> Covered(fs, i, off, n)
  {
    forall q :: 0 <= q < MAXFILE && off / BSIZE <= q && q * BSIZE < off + n && n > 0 ==> FileBlock(fs, i, q) != 0
  }

  lemma PatchCovers(fs: Fs, r: Fs, i: int, off: int, tot: int, src: seq<Byte>)
    requires 0 <= i < |fs.inodes| && 0 <= off && 0 <= tot && off + tot < MAXBYTES
    requires tot > 0 ==> (off + tot) % BSIZE == 0
    requires (off + tot) % BSIZE + |src| <= BSIZE
    requires Covered(fs, i, off, tot) && Patched(fs, r, i, off + tot, src)
    requires FileBlock(r, i, (off + tot) / BSIZE) != 0
    ensures Covered(r, i, off, tot + |src|)
    ensures forall b :: Indirect(fs, i, b) <= Indirect(r, i, b)
  {
    hide RawByte;
    assert GetSlot(fs, i, NDIRECT) != 0 ==> GetSlot(r, i, NDIRECT) == GetSlot(fs, i, NDIRECT);
    forall q | 0 <= q < MAXFILE && off / BSIZE <= q && q * BSIZE < off + tot + |src| ensures FileBlock(r, i, q) != 0 {
      if q != (off + tot) / BSIZE { assert FileBlock(fs, i, q) != 0; }
      hide GetSlot;
    }
  }

  /** A file without holes has the block that holds any byte below its size. */
  lemma Present(fs: Fs, r: Fs, i: int, off: int, src: seq<Byte>, q: int)
    requires 0 <= i < |fs.inodes| && 0 <= off && 0 <= q < MAXFILE && Patched(fs, r, i, off, src)
    ensures NoHoles(fs, i) && q * BSIZE < fs.inodes[i].size ==> FileBlock(r, i, q) != 0
  {
    hide RawByte, GetSlot;
    if NoHoles(fs, i) && q * BSIZE < fs.inodes[i].size { assert FileBlock(fs, i, q) != 0; }
  }

  lemma TouchedNext(off: int, tot: int, m: int)
    requires 0 <= off && 0 <= tot && 0 < m && (off + tot) % BSIZE + m <= BSIZE
    requires tot > 0 ==> (off + tot) % BSIZE == 0
    ensures Touched(off, tot + m) == Touched(off, tot) + 1
    ensures 0 <= Touched(off, tot) && (Touched(off, tot) == 0 <==> tot == 0)
  {
  }

  lemma PatchNothing(fs: Fs, i: int, off: int)
    requires 0 <= i < |fs.inodes| && 0 <= off
    ensures Patched(fs, fs, i, off, [])
  {
  }

  lemma ChunkPatches(was: Fs, mid: Fs, i: int, off: int, src: seq<Byte>)
    requires 0 <= i < |was.inodes| && 0 <= off < MAXBYTES && off % BSIZE + |src| <= BSIZE && Grown(was, mid, i)
    requires 0 < FileBlock(mid, i, off / BSIZE) < |mid.blocks|
    ensures var n := off / BSIZE;
      var r := WriteData(mid, i, n, Splice(mid.blocks[FileBlock(mid, i, n)], off % BSIZE, src));
      && Conserved(r)
      && Patched(was, r, i, off, src)
      && FileBlock(r, i, n) == FileBlock(mid, i, n)
      && r.inodes[i].size == was.inodes[i].size
  {
    hide Conserved, Patched, GetSlot, RawByte, Splice;
    var n := off / BSIZE;
    var data := Splice(mid.blocks[FileBlock(mid, i, n)], off % BSIZE, src);
    GrownIsPatched(was, mid, i, off);
    WriteIsPatch(mid, i, off, src);
    WriteConserves(mid, i, n, data);
    assert [] + src == src;
    PatchTwice(was, mid, WriteData(mid, i, n, data), i, off, [], src);
  }

  /** Allocating the indirect block leaves its words empty. */
  lemma FillOther(fs: Fs, i: int, s: int)
    requires Conserved(fs) && 0 <= i < |fs.inodes| && NDIRECT < s < NSLOTS && Fill(fs, i, NDIRECT).Done?
    ensures |Fill(fs, i, NDIRECT).fs.inodes| == |fs.inodes|
    ensures GetSlot(Fill(fs, i, NDIRECT).fs, i, s) == GetSlot(fs, i, s)
  {
    if GetSlot(fs, i, NDIRECT) == 0 {
      AllocOneSlot(fs, i, NDIRECT, FirstFree(fs, 0), i, s);
    }
  }

  lemma FreshConserved(fs: Fs)
    requires 0 < fs.nmeta <= |fs.blocks| <= 8 * |fs.bits| && |fs.blocks| < UINT
    requires forall i :: 0 <= i < |fs.inodes| ==> fs.inodes[i] == Inode(0, NoAddrs())
    requires forall x :: 0 <= x < 8 * |fs.bits| ==> (IsSet(fs.bits, x) <==> x < fs.nmeta)
    ensures Conserved(fs)
    ensures forall i :: 0 <= i < |fs.inodes| ==> NoHoles(fs, i)
  {
    hide IsSet;
  }

  lemma SameBit(base: int, bi: int)
    requires base % BPB == 0
    ensures base / 8 + bi / 8 == (base + bi) / 8 && bi % 8 == (base + bi) % 8
  {
  }

  lemma NeedsIndirect(fs: Fs, i: int, s: int)
    requires Conserved(fs) && 0 <= i < |fs.inodes| && NDIRECT < s < NSLOTS
    ensures GetSlot(fs, i, s) != 0 ==> GetSlot(fs, i, NDIRECT) != 0
    ensures 0 <= GetSlot(fs, i, NDIRECT) == fs.inodes[i].addrs[NDIRECT] < |fs.blocks|
  {
    IndirectInRange(fs, i);
  }

  lemma SlotNotNegative(fs: Fs, i: int, s: int)
    requires Conserved(fs) && 0 <= i < |fs.inodes| && 0 <= s < NSLOTS
    ensures 0 <= GetSlot(fs, i, s) < |fs.blocks|
  {
    if GetSlot(fs, i, s) != 0 { SlotInUse(fs, i, s); }
  }
}
