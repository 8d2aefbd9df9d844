/** Sequences of cache operations as the log uses them: reading a block, and copying one block over
    another through two buffers. */
module CacheOps {
  import opened LogDisk
  import opened CacheModel

  /** bread. */
  function Read(c: Cache, key: Key): (r: Cache)
    requires Sized(c) && Chosen(c, key) >= 0 && key in c.disk
    requires Get(c, key).bufs[Chosen(c, key)].key == key
    ensures Sized(r)
  {
    var b := Chosen(c, key);
    Fill(Lock(Get(c, key), b), b)
  }

  ghost predicate IsDirty(c: Cache, key: Key)
    requires Sized(c)
  {
    exists b :: 0 <= b < NBUF && c.bufs[b].dirty && c.bufs[b].key == key
  }

  /** bread returns a held buffer with the contents of the block and touches no other buffer, no
      view and no dirty flag. */
  lemma ReadKeeps(c: Cache, key: Key)
    requires Inv(c) && Chosen(c, key) >= 0 && key in c.disk && key.dev != 0 && !c.bufs[Chosen(c, key)].locked
    ensures Get(c, key).bufs[Chosen(c, key)].key == key
    ensures var c', b := Read(c, key), Chosen(c, key); var e, e' := c.bufs[b], c'.bufs[b];
      && Inv(c') && SameView(c, c')
      && c' == c.(bufs := c.bufs[b := e'])
      && e'.key == key && e'.valid && e'.locked && e'.data == View(c, key) && !e'.changed && e'.refcnt == e.refcnt + 1
      && e'.dirty == e.dirty && (e.dirty ==> e.key == key)
  {
    hide View;
    hide Ring;
    hide Unique;
    var b := Chosen(c, key);
    assert Sound(c.bufs[b], c.disk);
    GetKeeps(c, key);
    ChosenEntry(c, key);
    var c1 := Get(c, key);
    LockKeeps(c1, b);
    FillKeeps(Lock(c1, b), b);
  }

  lemma ChosenEntry(c: Cache, key: Key)
    requires Inv(c) && Chosen(c, key) >= 0
    ensures var b := Chosen(c, key); var e, e1 := c.bufs[b], Get(c, key).bufs[b];
      && e1 == (if Cached(c, key) then e.(refcnt := e.refcnt + 1) else e.(key := key, valid := false, dirty := false, refcnt := 1))
      && (if Cached(c, key) then e.key == key else e.refcnt == 0 && !e.dirty)
  {
  }

  /** Nobody holds or references a buffer. */
  ghost predicate Quiet(c: Cache)
    requires Sized(c)
  {
    forall b :: 0 <= b < NBUF ==> c.bufs[b].refcnt == 0
  }

  /** Whoever holds a buffer has not altered it. */
  ghost predicate Still(c: Cache)
    requires Sized(c)
  {
    forall b :: 0 <= b < NBUF ==> !c.bufs[b].changed
  }

  /** Nobody has the block's buffer locked. */
  ghost predicate Unlocked(c: Cache, key: Key)
    requires Sized(c)
  {
    forall b :: 0 <= b < NBUF && c.bufs[b].key == key ==> !c.bufs[b].locked
  }

  /** From base to c, the buffers in held have been taken, which nobody had locked; everybody else
      holds and waits for what he did before. */
  ghost predicate Holding(base: Cache, c: Cache, held: set<int>)
    requires Sized(base) && Sized(c)
  {
    forall b :: 0 <= b < NBUF ==>
      && c.bufs[b].refcnt == base.bufs[b].refcnt + (if b in held then 1 else 0)
      && (c.bufs[b].locked <==> b in held || base.bufs[b].locked)
      && (b in held ==> !base.bufs[b].locked)
      && (base.bufs[b].refcnt > 0 ==> c.bufs[b].key == base.bufs[b].key)
  }

  /** No buffer has become dirty. */
  ghost predicate NoNewDirt(c: Cache, c': Cache)
    requires Sized(c) && Sized(c')
  {
    forall b :: 0 <= b < NBUF && c'.bufs[b].dirty ==> c.bufs[b].dirty
  }

  predicate SomeReusable(c: Cache)
    requires Sized(c)
  {
    exists b :: 0 <= b < NBUF && Reusable(c.bufs[b])
  }

  lemma StillReusable(c: Cache, c': Cache)
    requires Sized(c) && Sized(c') && Holding(c, c', {}) && NoNewDirt(c, c') && SomeReusable(c)
    ensures SomeReusable(c')
  {
    var b :| 0 <= b < NBUF && Reusable(c.bufs[b]);
    assert Reusable(c'.bufs[b]);
  }

  lemma ReusableIsEnough(c: Cache, key: Key)
    requires Inv(c) && (SomeReusable(c) || IsDirty(c, key))
    ensures Chosen(c, key) >= 0
  {
    if IsDirty(c, key) {
      if !Cached(c, key) { NotCached(c, key); }
    } else {
      var b :| 0 <= b < NBUF && Reusable(c.bufs[b]);
      assert b in c.ring;
      var k :| 0 <= k < NBUF && c.ring[k] == b;
    }
  }

  ghost predicate SameDirty(c: Cache, c': Cache)
    requires Sized(c) && Sized(c')
  {
    forall key: Key :: key.dev != 0 ==> (IsDirty(c', key) <==> IsDirty(c, key))
  }

  lemma DirtyFrame(c: Cache, c': Cache, b: int)
    requires Sized(c) && Sized(c') && Index(b) && c'.bufs == c.bufs[b := c'.bufs[b]]
    requires c'.bufs[b].dirty == c.bufs[b].dirty && (c.bufs[b].dirty ==> c'.bufs[b].key == c.bufs[b].key)
    ensures SameDirty(c, c')
  {
    forall key: Key | key.dev != 0 ensures IsDirty(c', key) <==> IsDirty(c, key) {
      if IsDirty(c, key) {
        var x :| 0 <= x < NBUF && c.bufs[x].dirty && c.bufs[x].key == key;
        assert c'.bufs[x].dirty && c'.bufs[x].key == key;
      }
    }
  }

  lemma ChosenFree(c: Cache, key: Key)
    requires Inv(c) && Chosen(c, key) >= 0
    ensures c.bufs[Chosen(c, key)].key == key || Reusable(c.bufs[Chosen(c, key)])
  {
  }

  /** bread of a block whose buffer nobody has locked. */
  lemma ReadOne(c: Cache, key: Key)
    requires Inv(c) && Still(c) && Unlocked(c, key) && key in c.disk && key.dev != 0 && Chosen(c, key) >= 0
    ensures var b := Chosen(c, key); !c.bufs[b].locked && Get(c, key).bufs[b].key == key
    ensures var c', b := Read(c, key), Chosen(c, key);
      && Inv(c') && Still(c') && SameView(c, c') && SameDirty(c, c') && NoNewDirt(c, c') && c'.disk == c.disk
      && Holding(c, c', {b}) && b in c'.ring
      && c' == c.(bufs := c.bufs[b := c'.bufs[b]])
      && c'.bufs[b].key == key && c'.bufs[b].valid && c'.bufs[b].data == View(c, key)
  {
    hide View, Ring, Unique, Chosen, Get, Read;
    var b := Chosen(c, key);
    ChosenFree(c, key);
    ChosenKeepsKey(c, key);
    assert Sound(c.bufs[b], c.disk);
    ReadKeeps(c, key);
    DirtyFrame(c, Read(c, key), b);
    InRing(Read(c, key), b);
  }

  lemma ChosenKeepsKey(c: Cache, key: Key)
    requires Inv(c) && Chosen(c, key) >= 0
    ensures c.bufs[Chosen(c, key)].refcnt > 0 ==> c.bufs[Chosen(c, key)].key == key
  {
  }

  lemma InRing(c: Cache, b: int)
    requires Inv(c) && Index(b)
    ensures b in c.ring
  {
  }

  /** The two breads of write_log and install_trans. */
  lemma ReadTwo(c: Cache, k1: Key, k2: Key)
    requires Inv(c) && Still(c) && Unlocked(c, k1) && Unlocked(c, k2)
    requires k1 != k2 && k1 in c.disk && k2 in c.disk && k1.dev != 0 && k2.dev != 0
    requires Chosen(c, k1) >= 0
    ensures Get(c, k1).bufs[Chosen(c, k1)].key == k1 && !c.bufs[Chosen(c, k1)].locked
    ensures var c1 := Read(c, k1);
      Chosen(c1, k2) >= 0 ==>
        && !c1.bufs[Chosen(c1, k2)].locked
        && Get(c1, k2).bufs[Chosen(c1, k2)].key == k2
        && var c2 := Read(c1, k2); var b1, b2 := Chosen(c, k1), Chosen(c1, k2);
        && HoldsTwo(c, c2, b1, b2)
        && c2.bufs[b1].key == k1 && c2.bufs[b2].key == k2
  {
    hide View, Ring, Unique, Chosen, Get, Read, Inv, SameView, SameDirty;
    ReadOne(c, k1);
    var c1, b1 := Read(c, k1), Chosen(c, k1);
    assert Unlocked(c1, k2);
    if Chosen(c1, k2) >= 0 {
      ReadOne(c1, k2);
      TwoReads(c, c1, Read(c1, k2));
    }
  }

  lemma TwoReads(c: Cache, c1: Cache, c2: Cache)
    requires Sized(c) && Sized(c1) && Sized(c2) && SameView(c, c1) && SameView(c1, c2)
    requires SameDirty(c, c1) && SameDirty(c1, c2)
    ensures SameView(c, c2) && SameDirty(c, c2)
  {
    hide View, IsDirty;
  }

  /** From base on, buffers d and s have been read and nothing else has happened. */
  ghost predicate HoldsTwo(base: Cache, c: Cache, d: int, s: int)
    requires Sized(base) && Sized(c)
  {
    && Inv(c) && Still(c) && SameView(base, c) && SameDirty(base, c) && NoNewDirt(base, c) && c.disk == base.disk
    && Index(d) && Index(s) && d != s && Holding(base, c, {d, s})
    && c.bufs[d].valid && c.bufs[s].valid
  }

  /** memmove and bwrite: the disk gets the source's contents at the destination. */
  lemma CopyBetween(c: Cache, d: int, s: int)
    requires Inv(c) && Index(d) && Index(s) && d != s && c.bufs[d].key in c.disk && c.bufs[s].key in c.disk
    requires c.bufs[d].locked && c.bufs[d].valid && c.bufs[s].valid
    ensures var kd, ks := c.bufs[d].key, c.bufs[s].key; var c' := BWrite(Modify(c, d, c.bufs[s].data), d);
      && Inv(c')
      && c'.bufs == c.bufs[d := c.bufs[d].(data := c.bufs[s].data, dirty := false, changed := false)]
      && c'.disk == c.disk[kd := View(c, ks)] && View(c', kd) == View(c, ks)
      && (forall k :: k in c.disk && k.dev != 0 && k != kd ==> View(c', k) == View(c, k))
      && (forall k: Key :: k.dev != 0 ==> (IsDirty(c', k) <==> IsDirty(c, k) && k != kd))
  {
    hide View;
    hide Ring;
    assert Sound(c.bufs[d], c.disk);
    ViewAt(c, s);
    var c1 := Modify(c, d, c.bufs[s].data);
    ModifyKeeps(c, d, c.bufs[s].data);
    BWriteKeeps(c1, d);
    var c' := BWrite(c1, d);
    forall k: Key | k.dev != 0 ensures IsDirty(c', k) <==> IsDirty(c, k) && k != c.bufs[d].key {
      if IsDirty(c, k) && k != c.bufs[d].key {
        var x :| 0 <= x < NBUF && c.bufs[x].dirty && c.bufs[x].key == k;
        assert c'.bufs[x].dirty && c'.bufs[x].key == k;
      }
      if IsDirty(c', k) {
        var x :| 0 <= x < NBUF && c'.bufs[x].dirty && c'.bufs[x].key == k;
        assert c.bufs[x].dirty && c.bufs[x].key == k;
      }
    }
  }

  /** brelse of a buffer that was taken. */
  lemma ReleaseHeld(base: Cache, c: Cache, b: int, held: set<int>)
    requires Sized(base) && Inv(c) && Index(b) && b in held && Holding(base, c, held) && Still(c)
    ensures b in c.ring
    ensures var c' := Release(c, b);
      && Inv(c') && Still(c') && SameView(c, c') && SameDirty(c, c') && NoNewDirt(c, c') && c'.disk == c.disk
      && Holding(base, c', held - {b})
  {
    hide View, Unique, ToFront, PosOf;
    ReleaseKeeps(c, b);
    DirtyFrame(c, Release(c, b), b);
  }

  lemma ReleaseTwo(base: Cache, c: Cache, d: int, s: int)
    requires Sized(base) && Inv(c) && Still(c) && Index(d) && Index(s) && d != s && Holding(base, c, {d, s})
    ensures s in c.ring && d in Release(c, s).ring
    ensures var c' := Release(Release(c, s), d);
      && Inv(c') && Still(c') && SameView(c, c') && SameDirty(c, c') && NoNewDirt(c, c') && c'.disk == c.disk
      && Holding(base, c', {})
  {
    hide Inv, Release, SameView, SameDirty, Holding;
    ReleaseHeld(base, c, s, {d, s});
    assert {d, s} - {s} == {d};
    var c1 := Release(c, s);
    ReleaseHeld(base, c1, d, {d});
    assert {d} - {d} == {};
    TwoReads(c, c1, Release(c1, d));
  }

  /** The effect of copying block src over block dst through the cache. */
  ghost predicate Copied(c: Cache, c': Cache, dst: Key, src: Key)
    requires Sized(c) && Sized(c') && dst in c.disk && src in c.disk
  {
    && Inv(c') && Still(c') && Holding(c, c', {}) && NoNewDirt(c, c')
    && c'.disk == c.disk[dst := View(c, src)]
    && View(c', dst) == View(c, src)
    && (forall k :: k in c.disk && k.dev != 0 && k != dst ==> View(c', k) == View(c, k))
    && (forall k: Key :: k.dev != 0 ==> (IsDirty(c', k) <==> IsDirty(c, k) && k != dst))
  }

  /** A block that is neither dirty nor being altered shows what is on disk. */
  lemma CleanView(c: Cache, key: Key)
    requires Inv(c) && Still(c) && key in c.disk && !IsDirty(c, key)
    ensures View(c, key) == c.disk[key]
  {
    var h := Holder(c.bufs, key, 0);
    if h < NBUF { assert Sound(c.bufs[h], c.disk); }
  }

  lemma CopyDone(c: Cache, c2: Cache, d: int, s: int, dst: Key, src: Key)
    requires Inv(c) && dst in c.disk && src in c.disk && dst.dev != 0 && src.dev != 0
    requires Sized(c2) && HoldsTwo(c, c2, d, s)
    requires c2.bufs[d].key == dst && c2.bufs[s].key == src
    ensures var c3 := BWrite(Modify(c2, d, c2.bufs[s].data), d);
      && s in c3.ring && d in Release(c3, s).ring
      && Copied(c, Release(Release(c3, s), d), dst, src)
  {
    hide View;
    hide Inv;
    hide Release;
    hide IsDirty;
    CopyBetween(c2, d, s);
    var c3 := BWrite(Modify(c2, d, c2.bufs[s].data), d);
    assert Holding(c, c3, {d, s}) && Still(c3) && NoNewDirt(c2, c3);
    ReleaseTwo(c, c3, d, s);
  }

  /** bread, change, then log_write or bwrite, then brelse, of a block whose buffer nobody has
      locked. */
  lemma RewriteOne(c: Cache, key: Key, data: Block, pin: bool)
    requires Inv(c) && Still(c) && Unlocked(c, key) && key in c.disk && key.dev != 0 && Chosen(c, key) >= 0
    ensures Get(c, key).bufs[Chosen(c, key)].key == key && !c.bufs[Chosen(c, key)].locked
    ensures var b := Chosen(c, key); var c1 := Modify(Read(c, key), b, data); var c2 := if pin then Pin(c1, b) else BWrite(c1, b);
      && c2.bufs[b].locked && b in c2.ring
      && Read(c, key).bufs[b].data == View(c, key) && Read(c, key).bufs[b].locked && b in Read(c, key).ring
      && Rewritten(c, Release(c2, b), key, data, pin)
  {
    hide View, Ring, Chosen, Get, Read, SameView, SameDirty, Rewritten;
    ReadOne(c, key);
    var c0, b := Read(c, key), Chosen(c, key);
    assert c0.bufs[b].locked;
    RewriteHeld(c, c0, b, data, pin);
  }

  /** The effect of giving a block new contents, pinned in the cache or written through. */
  ghost predicate Rewritten(c: Cache, c': Cache, key: Key, data: Block, pin: bool)
    requires Sized(c) && Sized(c') && key in c.disk
  {
    && Inv(c') && Still(c') && Holding(c, c', {}) && (!pin ==> NoNewDirt(c, c'))
    && c'.disk == (if pin then c.disk else c.disk[key := data])
    && View(c', key) == data
    && (forall k :: k in c.disk && k.dev != 0 && k != key ==> View(c', k) == View(c, k))
    && (forall k: Key :: k.dev != 0 ==> (IsDirty(c', k) <==> if k == key then pin else IsDirty(c, k)))
  }

  lemma RewriteHeld(base: Cache, c: Cache, b: int, data: Block, pin: bool)
    requires Sized(base) && Inv(c) && Still(c) && Index(b) && Holding(base, c, {b}) && SameView(base, c)
    requires SameDirty(base, c) && NoNewDirt(base, c) && c.disk == base.disk
    requires c.bufs[b].valid && c.bufs[b].key in c.disk && c.bufs[b].key.dev != 0
    ensures var key := c.bufs[b].key; var c1 := Modify(c, b, data); var c2 := if pin then Pin(c1, b) else BWrite(c1, b);
      && c2.bufs[b].locked && b in c2.ring
      && Rewritten(base, Release(c2, b), key, data, pin)
  {
    hide View, Ring, Release, Unique, Inv, IsDirty;
    RewriteInPlace(c, b, data, pin);
    var c1 := Modify(c, b, data);
    var c2 := if pin then Pin(c1, b) else BWrite(c1, b);
    assert Holding(base, c2, {b}) && Still(c2);
    ReleaseHeld(base, c2, b, {b});
    assert {b} - {b} == {};
  }

  /** The change to a held buffer, before it is released. */
  lemma RewriteInPlace(c: Cache, b: int, data: Block, pin: bool)
    requires Inv(c) && Index(b) && c.bufs[b].locked && c.bufs[b].valid && c.bufs[b].key in c.disk && c.bufs[b].key.dev != 0
    ensures var key := c.bufs[b].key; var c1 := Modify(c, b, data); var c2 := if pin then Pin(c1, b) else BWrite(c1, b);
      && Inv(c2) && View(c2, key) == data
      && c2.disk == (if pin then c.disk else c.disk[key := data])
      && (forall k :: k in c.disk && k.dev != 0 && k != key ==> View(c2, k) == View(c, k))
      && (forall k: Key :: k.dev != 0 ==> (IsDirty(c2, k) <==> if k == key then pin else IsDirty(c, k)))
  {
    hide View, Ring, Unique, IsDirty;
    var c1 := Modify(c, b, data);
    ModifyKeeps(c, b, data);
    if pin { PinKeeps(c1, b); } else { BWriteKeeps(c1, b); }
    RewriteDirty(c, if pin then Pin(c1, b) else BWrite(c1, b), b, pin);
  }

  lemma RewriteDirty(c: Cache, c': Cache, b: int, pin: bool)
    requires Inv(c) && Sized(c') && Index(b) && c'.bufs == c.bufs[b := c'.bufs[b]]
    requires c'.bufs[b].dirty == pin && c'.bufs[b].key == c.bufs[b].key && c.bufs[b].key.dev != 0
    ensures forall k: Key :: k.dev != 0 ==> (IsDirty(c', k) <==> if k == c.bufs[b].key then pin else IsDirty(c, k))
  {
    forall k: Key | k.dev != 0 ensures IsDirty(c', k) <==> if k == c.bufs[b].key then pin else IsDirty(c, k) {
      if k == c.bufs[b].key {
        assert pin ==> c'.bufs[b].dirty;
      } else if IsDirty(c, k) {
        var x :| 0 <= x < NBUF && c.bufs[x].dirty && c.bufs[x].key == k;
        assert c'.bufs[x].dirty && c'.bufs[x].key == k;
      }
    }
  }
}
