/** Open files: fileread and filewrite, which cuts a write into transactions that fit the log. */
module FileOps {

  import opened FsBits
  import opened FsModel
  import opened FsFiles
  import opened FsHeap

  /** The most that one transaction writes, from the arithmetic in filewrite. */
  const CHUNK: int := (MAXOPBLOCKS - 1 - 1 - 2) / 2 * 512

  ghost predicate Reached(was: Fs, now: Fs, i: int, off: int, src: seq<Byte>)
    requires 0 <= i < |was.inodes| && 0 <= off
    ensures Reached(was, now, i, off, src) ==> |now.inodes| == |was.inodes|
    ensures src == [] && now == was ==> Reached(was, now, i, off, src)
  {
    if src == [] then now == was else Written(was, now, i, off, src)
  }

  /** The first i of n bytes, cut into k chunks of which only the last may be short. */
  predicate Cut(n: int, i: int, k: int)
    ensures i == k == 0 ==> Cut(n, i, k)
    ensures Cut(n, i, k) && i < n ==> i == k * CHUNK
  {
    if i < n then i == k * CHUNK else (k - 1) * CHUNK < i <= k * CHUNK || i == 0
  }

  lemma CutAll(n: int, k: int)
    requires 0 < n && Cut(n, n, k)
    ensures k == (n + CHUNK - 1) / CHUNK
  {
    var rest := n - (k - 1) * 1536;
    assert n + 1535 == k * 1536 + (rest - 1);
  }

  lemma CutNext(n: int, i: int, k: int)
    requires 0 <= i < n && Cut(n, i, k)
    ensures Cut(n, i + (if n - i > CHUNK then CHUNK else n - i), k + 1)
  {
  }

  /** Two writes that follow on are one. */
  lemma WrittenTwice(was: Fs, mid: Fs, now: Fs, i: int, off: int, a: seq<Byte>, b: seq<Byte>)
    requires 0 <= i < |was.inodes| && 0 <= off
    requires Reached(was, mid, i, off, a) && Written(mid, now, i, off + |a|, b) && b != []
    ensures Reached(was, now, i, off, a + b)
  {
    hide Patched;
    if a == [] {
      assert a + b == b;
    } else {
      PatchTwice(was, mid, now, i, off, a, b);
    }
  }

  /** How much of a write of n bytes at off gets done: all of it, or nothing where the offset is
      past the end, or else the whole chunks that end within the largest file. */
  predicate Does(off: int, n: int, size: int, done: int) {
    if n <= 0 then done == 0
    else if off > size then done == 0
    else if off + n <= MAXBYTES then done == n
    else 0 <= done < n && done % CHUNK == 0 && off + done <= MAXBYTES
         && off + done + (if n - done < CHUNK then n - done else CHUNK) > MAXBYTES
  }

  predicate AllFit(logs: seq<set<int>>) {
    forall t :: 0 <= t < |logs| ==> |logs[t]| <= MAXOPBLOCKS
  }

  class File {
    const fs: FileSystem
    const ip: int
    const readable: bool
    const writable: bool
    var off: int

    constructor (fs: FileSystem, ip: int, readable: bool, writable: bool)
      ensures this.fs == fs && this.ip == ip && this.readable == readable && this.writable == writable && off == 0
    {
      this.fs, this.ip, this.readable, this.writable, off := fs, ip, readable, writable, 0;
    }

    ghost predicate Valid()
      reads this, fs.bits, fs.blocks, fs.inode
    {
      && fs.Valid() && 0 <= ip < fs.inode.Length && 0 <= off < UINT
      && (fs as object) != this
    }

    /** One transaction of filewrite. */
    method WriteOp(src: seq<Byte>) returns (r: int, ok: bool)
      requires Valid() && 0 < |src| <= CHUNK
      modifies this, fs, fs.bits, fs.blocks, fs.inode, fs.dinode
      ensures !ok ==> Full(fs.View())
      ensures ok ==> Valid() && (NoHoles(old(fs.View()), ip) ==> NoHoles(fs.View(), ip) && |fs.logged| <= MAXOPBLOCKS)
      ensures ok && NoHoles(old(fs.View()), ip) && old(fs.dinode[ip] == fs.inode[ip]) ==> fs.dinode[ip] == fs.inode[ip]
      ensures ok && (old(off) > old(fs.inode[ip].size) || old(off) + |src| > MAXBYTES) ==>
        r == -1 && fs.View() == old(fs.View()) && off == old(off)
      ensures ok && old(off) <= old(fs.inode[ip].size) && old(off) + |src| <= MAXBYTES ==>
        r == |src| && Written(old(fs.View()), fs.View(), ip, old(off), src) && off == old(off) + |src|
    {
      hide Conserved, Full, NoHoles, Written;
      fs.BeginOp();
      r, ok := fs.WriteI(ip, src, off);
      if !ok { return; }
      if r > 0 { off := off + r; }
    }

    /** The loop of filewrite: how far it gets, and what each of its transactions logs. */
    method WriteOps(addr: seq<Byte>, n: int) returns (i: int, ok: bool, ghost logs: seq<set<int>>)
      requires Valid() && n <= |addr|
      modifies this, fs, fs.bits, fs.blocks, fs.inode, fs.dinode
      ensures !ok ==> Full(fs.View())
      ensures ok ==> Valid() && off == old(off) + i && 0 <= i <= |addr|
      ensures ok ==> Reached(old(fs.View()), fs.View(), ip, old(off), addr[..i])
      ensures ok ==> Does(old(off), n, old(fs.inode[ip].size), i)
      ensures ok && 0 < i == n ==> |logs| == (n + CHUNK - 1) / CHUNK
      ensures ok && NoHoles(old(fs.View()), ip) ==> NoHoles(fs.View(), ip) && AllFit(logs)
      ensures ok && NoHoles(old(fs.View()), ip) && old(fs.dinode[ip] == fs.inode[ip]) ==> fs.dinode[ip] == fs.inode[ip]
    {
      hide Conserved, Full, NoHoles, Written, Reached, Cut;
      logs, ok := [], true;
      ghost var was, start := fs.View(), off;
      i := 0;
      while i < n
        invariant 0 <= i <= |addr| && (n <= 0 ==> i == 0) && (n > 0 ==> i <= n)
        invariant ok && Valid() && off == start + i && Reached(was, fs.View(), ip, start, addr[..i])
        invariant i > 0 ==> start <= was.inodes[ip].size && start + i <= MAXBYTES
        invariant Cut(n, i, |logs|)
        invariant NoHoles(was, ip) ==> NoHoles(fs.View(), ip) && AllFit(logs)
        invariant NoHoles(was, ip) && old(fs.dinode[ip] == fs.inode[ip]) ==> fs.dinode[ip] == fs.inode[ip]
      {
        var n1 := if n - i > CHUNK then CHUNK else n - i;
        ghost var mid := fs.View();
        ReachedSize(was, mid, ip, start, addr[..i]);
        var r;
        r, ok := WriteOp(addr[i..i + n1]);
        if !ok { return; }
        logs := logs + [fs.logged];
        if r < 0 { break; }
        assert addr[..i + n1] == addr[..i] + addr[i..i + n1];
        WrittenTwice(was, mid, fs.View(), ip, start, addr[..i], addr[i..i + n1]);
        CutNext(n, i, |logs| - 1);
        i := i + r;
      }
      if 0 < i == n { CutAll(n, |logs|); }
    }

    /** filewrite. It returns n exactly when all n bytes fit, and then the file is overwritten by
        them and no other file changes; what it does write it writes in order; and in a file
        without holes no transaction logs more than MAXOPBLOCKS blocks. */
    method FileWrite(addr: seq<Byte>, n: int) returns (r: int, ok: bool, ghost done: int, ghost logs: seq<set<int>>)
      requires Valid() && n <= |addr|
      modifies this, fs, fs.bits, fs.blocks, fs.inode, fs.dinode
      ensures !ok ==> Full(fs.View())
      ensures ok && !writable ==> r == -1 && done == 0
      ensures ok ==> Valid() && off == old(off) + done && 0 <= done <= |addr|
      ensures ok ==> Reached(old(fs.View()), fs.View(), ip, old(off), addr[..done])
      ensures ok && writable ==> Does(old(off), n, old(fs.inode[ip].size), done) && r == if done == n then n else -1
      ensures ok && writable ==>
        (0 <= r <==> n == 0 || (0 < n && old(off) <= old(fs.inode[ip].size) && old(off) + n <= 71680))
      ensures ok && writable && 0 < r == n ==> |logs| == (n + 1535) / 1536
      ensures ok && 0 < r ==>
        && old(off) <= old(fs.inode[ip].size)
        && Contents(fs.View(), ip) == Overwrite(Contents(old(fs.View()), ip), old(off), addr[..done])
        && forall j :: 0 <= j < fs.inode.Length && j != ip ==> Contents(fs.View(), j) == Contents(old(fs.View()), j)
      ensures ok && NoHoles(old(fs.View()), ip) ==> NoHoles(fs.View(), ip) && AllFit(logs)
      ensures ok && NoHoles(old(fs.View()), ip) && old(fs.dinode[ip] == fs.inode[ip]) ==> fs.dinode[ip] == fs.inode[ip]
    {
      hide Conserved, Full, NoHoles, Reached, Overwrite, Contents;
      if !writable { return -1, true, 0, []; }
      var i;
      i, ok, logs := WriteOps(addr, n);
      done, r := i, if i == n then n else -1;
      if ok && 0 < r { ReachedOverwrites(old(fs.View()), fs.View(), ip, old(off), addr[..done]); }
    }

    /** fileread: the next bytes of the file, as many as there are up to n. */
    method FileRead(n: int) returns (r: int, dst: seq<Byte>, ok: bool)
      requires Valid() && 0 <= n < UINT
      modifies this`off, fs`logged, fs.bits, fs.blocks, fs.inode
      ensures !ok ==> Full(fs.View())
      ensures NoHoles(old(fs.View()), ip) ==> ok && fs.View() == old(fs.View())
      ensures ok && readable ==> Grown(old(fs.View()), fs.View(), ip)
      ensures ok ==> (r == -1 <==> !readable || old(off) > old(fs.inode[ip].size) || old(off) + n >= 0x1_0000_0000)
      ensures ok && r == -1 ==> dst == [] && off == old(off) && fs.View() == old(fs.View())
      ensures ok && r != -1 ==>
        && 0 <= r == (if n < old(fs.inode[ip].size) - old(off) then n else old(fs.inode[ip].size) - old(off))
        && off == old(off) + r && dst == Contents(old(fs.View()), ip)[old(off)..off]
    {
      hide Conserved, Full, NoHoles, Contents, Grown;
      if !readable { return -1, [], true; }
      r, dst, ok := fs.ReadI(ip, off, n);
      if ok && r > 0 { off := off + r; }
    }
  }

  /** The refinement of a write: new contents for one file, and the same for all others. */
  lemma ReachedOverwrites(was: Fs, now: Fs, i: int, off: int, src: seq<Byte>)
    requires Conserved(was) && Conserved(now) && 0 <= i < |was.inodes| && 0 <= off <= was.inodes[i].size
    requires Reached(was, now, i, off, src) && src != []
    ensures Contents(now, i) == Overwrite(Contents(was, i), off, src)
    ensures forall j :: 0 <= j < |was.inodes| && j != i ==> Contents(now, j) == Contents(was, j)
  {
    hide Conserved, Patched;
    PatchOverwrites(was, now, i, off, src);
  }

  lemma ReachedSize(was: Fs, now: Fs, i: int, off: int, src: seq<Byte>)
    requires 0 <= i < |was.inodes| && 0 <= off && Reached(was, now, i, off, src)
    ensures now.inodes[i].size == if src == [] then was.inodes[i].size else Max(was.inodes[i].size, off + |src|)
  {
    hide Patched;
  }
}
