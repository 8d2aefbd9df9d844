/** bio.c as it is written: buffers in an array updated in place and the LRU ring as a doubly
    linked list through a head node.  Ghost fields hold what the ring runs through, the release
    clock, and every image the disk has had. */
module CacheHeap {
  import opened LogDisk
  import opened CacheModel
  import opened CacheRing
  import O = CacheOps
  import R = CacheRuns

  class BCache {
    const buf: array<Buf>
    const next: array<int>
    const prev: array<int>
    var disk: map<Key, Block>
    ghost var ring: seq<int>
    var now: int
    ghost var images: seq<map<Key, Block>>

    ghost function C(): Cache
      reads this, buf
    {
      Cache(buf[..], ring, disk, now)
    }

    ghost predicate Valid()
      reads this, buf, next, prev
      ensures Valid() ==> Sized(C())
    {
      && buf.Length == NBUF && next.Length == prev.Length == NBUF + 1 && next != prev
      && Sized(C()) && Linked(next[..], prev[..], ring)
    }

    /** binit. */
    constructor (disk: map<Key, Block>, blank: Block)
      ensures Valid() && C() == R.Booted(disk, blank) && images == []
      ensures fresh(buf) && fresh(next) && fresh(prev)
    {
      buf := new Buf[NBUF](i => Buf(Key(0, 0), false, false, 0, false, blank, false, 0));
      next := new int[NBUF + 1](i => HEAD);
      prev := new int[NBUF + 1](i => HEAD);
      this.disk, ring, now, images := disk, [], 0, [];
      new;
      var b := 0;
      while b < NBUF
        invariant 0 <= b <= NBUF && fresh(next) && fresh(prev)
        invariant |ring| == b && forall k :: 0 <= k < b ==> ring[k] == b - 1 - k
        invariant Linked(next[..], prev[..], ring)
        invariant buf[..] == R.Booted(disk, blank).bufs && this.disk == disk && now == 0 && images == []
      {
        PushFront(b);
        b := b + 1;
      }
      assert ring == R.Booted(disk, blank).ring;
    }

    method PushFront(b: int)
      requires next.Length == prev.Length == NBUF + 1 && next != prev
      requires Linked(next[..], prev[..], ring) && Index(b) && b !in ring
      modifies this`ring, next, prev
      ensures ring == [b] + old(ring) && Linked(next[..], prev[..], ring)
    {
      PushLinked(next[..], prev[..], ring, b);
      next[b] := next[HEAD];
      prev[b] := HEAD;
      prev[next[HEAD]] := b;
      next[HEAD] := b;
      ring := [b] + ring;
    }

    /** Search from the most recently used end for the block. */
    method FindCached(key: Key) returns (b: int)
      requires Valid()
      ensures b == if Cached(C(), key) then Chosen(C(), key) else HEAD
    {
      b := next[HEAD];
      ghost var k := 0;
      while b != HEAD
        invariant 0 <= k <= NBUF && b == At(ring, k)
        invariant forall j :: 0 <= j < k ==> buf[ring[j]].key != key
        decreases NBUF - k
      {
        if buf[b].key == key { return; }
        assert next[..][ring[k]] == At(ring, k + 1);
        b := next[b];
        k := k + 1;
      }
    }

    /** Search from the least recently used end for a buffer to recycle. */
    method FindReusable() returns (b: int)
      requires Valid()
      ensures var v := FindVictim(buf[..], ring, NBUF); b == if v >= 0 then ring[v] else HEAD
    {
      b := prev[HEAD];
      ghost var k := NBUF - 1;
      while b != HEAD
        invariant -1 <= k < NBUF && b == At(ring, k)
        invariant forall j :: k < j < NBUF ==> !Reusable(buf[ring[j]])
        decreases k
      {
        if buf[b].refcnt == 0 && !buf[b].dirty { return; }
        assert prev[..][ring[k]] == At(ring, k - 1);
        b := prev[b];
        k := k - 1;
      }
    }

    /** bget up to the release of bcache.lock.  The panic for want of buffers is excluded. */
    method BGet(key: Key) returns (b: int)
      requires Valid() && Chosen(C(), key) >= 0
      modifies buf
      ensures Valid() && C() == Get(old(C()), key) && b == Chosen(old(C()), key)
    {
      b := FindCached(key);
      if b != HEAD {
        buf[b] := buf[b].(refcnt := buf[b].refcnt + 1);
        return;
      }
      b := FindReusable();
      buf[b] := buf[b].(key := key, valid := false, dirty := false, refcnt := 1);
    }

    /** acquiresleep, once nobody has the buffer locked. */
    method Acquire(b: int)
      requires Valid() && Index(b) && !buf[b].locked
      modifies buf
      ensures Valid() && C() == Lock(old(C()), b)
    {
      buf[b] := buf[b].(locked := true);
    }

    method BRead(key: Key) returns (b: int)
      requires Valid() && Chosen(C(), key) >= 0 && key in disk && Get(C(), key).bufs[Chosen(C(), key)].key == key
      requires !C().bufs[Chosen(C(), key)].locked
      modifies buf
      ensures Valid() && C() == O.Read(old(C()), key) && b == Chosen(old(C()), key)
    {
      b := BGet(key);
      Acquire(b);
      if !buf[b].valid {
        buf[b] := buf[b].(valid := true, data := disk[buf[b].key]);
      }
    }

    method SetData(b: int, data: Block)
      requires Valid() && Index(b)
      modifies buf
      ensures Valid() && C() == Modify(old(C()), b, data)
    {
      buf[b] := buf[b].(data := data, changed := true);
    }

    /** Mark the buffer dirty and write it out, which clears the mark again. */
    method BWrite(b: int)
      requires Valid() && Index(b) && buf[b].locked
      modifies this`disk, this`images, buf
      ensures Valid() && C() == CacheModel.BWrite(old(C()), b) && images == old(images) + [disk]
    {
      buf[b] := buf[b].(dirty := true);
      disk := disk[buf[b].key := buf[b].data];
      images := images + [disk];
      buf[b] := buf[b].(dirty := false, valid := true, changed := false);
    }

    method MarkDirty(b: int)
      requires Valid() && Index(b)
      modifies buf
      ensures Valid() && C() == Pin(old(C()), b)
    {
      buf[b] := buf[b].(dirty := true, changed := false);
    }

    /** Take b out of the ring. */
    method Unlink(b: int)
      requires next.Length == prev.Length == NBUF + 1 && next != prev
      requires Linked(next[..], prev[..], ring) && b in ring
      modifies this`ring, next, prev
      ensures var p := PosOf(old(ring), b); ring == Without(old(ring), p)
      ensures Linked(next[..], prev[..], ring) && Index(b) && b !in ring
    {
      ghost var p := PosOf(ring, b);
      UnlinkLinked(next[..], prev[..], ring, p);
      prev[next[b]] := prev[b];
      next[prev[b]] := next[b];
      WithoutMembers(ring, p);
      ring := Without(ring, p);
    }

    method BRelse(b: int)
      requires Valid() && Index(b) && b in ring && buf[b].locked
      modifies this`ring, this`now, buf, next, prev
      ensures Valid() && C() == Release(old(C()), b)
    {
      hide Linked;
      hide PosOf;
      buf[b] := buf[b].(locked := false, refcnt := buf[b].refcnt - 1);
      if buf[b].refcnt == 0 {
        Unlink(b);
        PushFront(b);
        assert ring == ToFront(old(ring), PosOf(old(ring), b));
        now := now + 1;
        buf[b] := buf[b].(released := now);
      }
    }

    /** Change a held buffer, write it out, release it. */
    method WriteAndRelease(b: int, data: Block)
      requires Valid() && Index(b) && b in ring && buf[b].locked
      modifies this, buf, next, prev
      ensures Valid() && C() == Release(CacheModel.BWrite(Modify(old(C()), b, data), b), b)
      ensures images == old(images) + [disk]
    {
      hide Release;
      SetData(b, data);
      BWrite(b);
      BRelse(b);
    }

    /** Change a held buffer, pin it, release it. */
    method PinAndRelease(b: int, data: Block)
      requires Valid() && Index(b) && b in ring && buf[b].locked
      modifies this, buf, next, prev
      ensures Valid() && C() == Release(Pin(Modify(old(C()), b, data), b), b)
      ensures images == old(images)
    {
      hide Release;
      SetData(b, data);
      MarkDirty(b);
      BRelse(b);
    }

    /** The two breads at the head of the loops of write_log and install_trans. */
    method ReadBoth(k1: Key, k2: Key) returns (b1: int, b2: int)
      requires Valid() && Inv(C()) && O.Still(C()) && O.Unlocked(C(), k1) && O.Unlocked(C(), k2)
      requires k1 != k2 && k1 in disk && k2 in disk && k1.dev != 0 && k2.dev != 0
      requires Chosen(C(), k1) >= 0
      requires Get(C(), k1).bufs[Chosen(C(), k1)].key == k1 && Chosen(O.Read(C(), k1), k2) >= 0
      modifies buf
      ensures Valid() && O.HoldsTwo(old(C()), C(), b1, b2) && Index(b1) && Index(b2) && buf[b1].key == k1 && buf[b2].key == k2
    {
      hide Inv;
      hide Linked;
      hide O.Read;
      hide Get;
      hide Chosen;
      hide O.HoldsTwo;
      O.ReadTwo(C(), k1, k2);
      b1 := BRead(k1);
      b2 := BRead(k2);
    }

    /** The rest of the loops' bodies: copy, write out, release both. */
    method CopyHeld(dst: int, src: int, ghost before: Cache)
      requires Valid() && Inv(before) && (O.HoldsTwo(before, C(), dst, src) || O.HoldsTwo(before, C(), src, dst))
      requires Index(dst) && Index(src) && dst != src && disk == before.disk
      requires buf[dst].key in disk && buf[src].key in disk && buf[dst].key.dev != 0 && buf[src].key.dev != 0
      modifies this, buf, next, prev
      ensures Valid() && O.Copied(before, C(), old(buf[dst].key), old(buf[src].key))
      ensures images == old(images) + [disk]
    {
      hide Inv;
      hide Linked;
      hide O.Copied;
      hide SameView;
      hide O.SameDirty;
      hide Release;
      O.CopyDone(before, C(), dst, src, buf[dst].key, buf[src].key);
      SetData(dst, buf[src].data);
      BWrite(dst);
      BRelse(src);
      ReleaseOne(CacheModel.BWrite(Modify(old(C()), dst, old(buf[src].data)), dst), src, dst);
      BRelse(dst);
    }
  }

  lemma ReleaseOne(c: Cache, s: int, d: int)
    requires Sized(c) && Index(s) && Index(d) && s in c.ring && s != d
    ensures Release(c, s).bufs[d] == c.bufs[d]
  {
  }
}
