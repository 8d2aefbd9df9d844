/** The buffer cache of bio.c as a value: the buffers, the LRU ring (most recently used first) and
    the disk under them, with the operations as functions and what they keep. */
module CacheModel {
  import opened LogDisk

  const NBUF: int := 30

  datatype Key = Key(dev: int, blockno: int)

  /** A buffer.  `changed` and `released` serve the statements only: the holder has altered the
      data and not yet called log_write or bwrite; when the last holder let go, 0 for never. */
  datatype Buf = Buf(key: Key, valid: bool, dirty: bool, refcnt: int, locked: bool, data: Block,
                     changed: bool, released: int)

  datatype Cache = Cache(bufs: seq<Buf>, ring: seq<int>, disk: map<Key, Block>, now: int)

  predicate Index(b: int) {
    0 <= b < NBUF
  }

  ghost predicate Sized(c: Cache) {
    |c.bufs| == NBUF && |c.ring| == NBUF && forall k :: 0 <= k < NBUF ==> 0 <= c.ring[k] < NBUF
  }

  // ----- bget, bread, bwrite, brelse, log_write

  /** The first position of the ring, from k on, that holds the block; NBUF if none. */
  function FindHit(bufs: seq<Buf>, ring: seq<int>, key: Key, k: nat): (r: nat)
    requires |bufs| == NBUF && k <= |ring| && forall j :: 0 <= j < |ring| ==> 0 <= ring[j] < NBUF
    ensures k <= r <= |ring|
    ensures r < |ring| ==> bufs[ring[r]].key == key
    ensures forall j :: k <= j < r ==> bufs[ring[j]].key != key
    decreases |ring| - k
  {
    if k == |ring| || bufs[ring[k]].key == key then k else FindHit(bufs, ring, key, k + 1)
  }

  predicate Reusable(b: Buf) {
    b.refcnt == 0 && !b.dirty
  }

  /** The last position of the ring, below k, with a reusable buffer; -1 if none. */
  function FindVictim(bufs: seq<Buf>, ring: seq<int>, k: nat): (r: int)
    requires |bufs| == NBUF && k <= |ring| && forall j :: 0 <= j < |ring| ==> 0 <= ring[j] < NBUF
    ensures -1 <= r < k
    ensures r >= 0 ==> Reusable(bufs[ring[r]])
    ensures forall j :: r < j < k ==> !Reusable(bufs[ring[j]])
    decreases |ring|, k
  {
    if k == 0 || Reusable(bufs[ring[k - 1]]) then k - 1 else FindVictim(bufs, ring, k - 1)
  }

  /** The buffer bget returns, or -1 where it panics for want of buffers. */
  function Chosen(c: Cache, key: Key): (b: int)
    requires Sized(c)
    ensures -1 <= b < NBUF
  {
    var h := FindHit(c.bufs, c.ring, key, 0);
    var v := FindVictim(c.bufs, c.ring, |c.ring|);
    if h < NBUF then c.ring[h] else if v >= 0 then c.ring[v] else -1
  }

  predicate Cached(c: Cache, key: Key)
    requires Sized(c)
  {
    FindHit(c.bufs, c.ring, key, 0) < NBUF
  }

  /** bget under bcache.lock: take a reference, recycling a buffer on a miss. */
  function Get(c: Cache, key: Key): (r: Cache)
    requires Sized(c) && Chosen(c, key) >= 0
    ensures Sized(r)
  {
    var b := Chosen(c, key);
    var e := c.bufs[b];
    if Cached(c, key) then c.(bufs := c.bufs[b := e.(refcnt := e.refcnt + 1)])
    else c.(bufs := c.bufs[b := e.(key := key, valid := false, dirty := false, refcnt := 1)])
  }

  /** acquiresleep, once the buffer is free. */
  function Lock(c: Cache, b: int): (r: Cache)
    requires Sized(c) && Index(b)
    ensures Sized(r)
  {
    c.(bufs := c.bufs[b := c.bufs[b].(locked := true)])
  }

  /** bread's iderw: read the block unless the buffer has it. */
  function Fill(c: Cache, b: int): (r: Cache)
    requires Sized(c) && Index(b) && c.bufs[b].key in c.disk
    ensures Sized(r)
  {
    var e := c.bufs[b];
    if e.valid then c else c.(bufs := c.bufs[b := e.(valid := true, data := c.disk[e.key])])
  }

  /** The holder alters the data. */
  function Modify(c: Cache, b: int, data: Block): (r: Cache)
    requires Sized(c) && Index(b)
    ensures Sized(r)
  {
    c.(bufs := c.bufs[b := c.bufs[b].(data := data, changed := true)])
  }

  /** log_write's part: pin the buffer. */
  function Pin(c: Cache, b: int): (r: Cache)
    requires Sized(c) && Index(b)
    ensures Sized(r)
  {
    c.(bufs := c.bufs[b := c.bufs[b].(dirty := true, changed := false)])
  }

  function BWrite(c: Cache, b: int): (r: Cache)
    requires Sized(c) && Index(b)
    ensures Sized(r)
  {
    var e := c.bufs[b];
    c.(bufs := c.bufs[b := e.(dirty := false, valid := true, changed := false)], disk := c.disk[e.key := e.data])
  }

  function PosOf(ring: seq<int>, b: int): (k: nat)
    requires b in ring
    ensures k < |ring| && ring[k] == b && b !in ring[..k]
  {
    if ring[0] == b then 0 else 1 + PosOf(ring[1..], b)
  }

  function ToFront(ring: seq<int>, k: nat): (r: seq<int>)
    requires k < |ring|
    ensures |r| == |ring|
    ensures (forall j :: 0 <= j < |ring| ==> 0 <= ring[j] < NBUF) ==> forall j :: 0 <= j < |r| ==> 0 <= r[j] < NBUF
  {
    [ring[k]] + ring[..k] + ring[k + 1..]
  }

  /** brelse: unlock, drop the reference, and on the last one move to the front of the ring. */
  function Release(c: Cache, b: int): (r: Cache)
    requires Sized(c) && Index(b) && b in c.ring
    ensures Sized(r)
  {
    var e := c.bufs[b].(locked := false, refcnt := c.bufs[b].refcnt - 1);
    if e.refcnt != 0 then c.(bufs := c.bufs[b := e])
    else c.(bufs := c.bufs[b := e.(released := c.now + 1)], ring := ToFront(c.ring, PosOf(c.ring, b)), now := c.now + 1)
  }

  // ----- the invariant

  /** The ring is a permutation of the buffers, in order of last release, latest first. */
  ghost predicate Ring(c: Cache)
    requires Sized(c)
  {
    && (forall j, k :: 0 <= j < k < NBUF ==> c.ring[j] != c.ring[k])
    && (forall b :: 0 <= b < NBUF ==> b in c.ring)
    && (forall b :: 0 <= b < NBUF ==> 0 <= c.bufs[b].released <= c.now)
    && (forall j, k :: 0 <= j < k < NBUF ==>
          c.bufs[c.ring[j]].released > c.bufs[c.ring[k]].released || c.bufs[c.ring[j]].released == c.bufs[c.ring[k]].released == 0)
  }

  /** A buffer that is neither pinned nor being changed agrees with the disk. */
  predicate Sound(e: Buf, disk: map<Key, Block>) {
    && e.refcnt >= 0
    && (e.locked ==> e.refcnt > 0)
    && (e.refcnt > 0 || e.valid ==> e.key.dev != 0)
    && (e.dirty ==> e.valid)
    && (e.changed ==> e.valid && e.locked)
    && (e.valid && !e.dirty && !e.changed ==> e.key in disk && e.data == disk[e.key])
  }

  ghost predicate Unique(c: Cache)
    requires Sized(c)
  {
    forall i, j :: 0 <= i < j < NBUF && c.bufs[i].key == c.bufs[j].key ==> c.bufs[i].key.dev == 0
  }

  ghost predicate Inv(c: Cache)
    ensures Inv(c) ==> Sized(c)
  {
    Sized(c) && Ring(c) && Unique(c) && forall b :: 0 <= b < NBUF ==> Sound(c.bufs[b], c.disk)
  }

  /** The index of a buffer with valid contents for the block, from i on; NBUF if none. */
  function Holder(bufs: seq<Buf>, key: Key, i: nat): (r: nat)
    requires |bufs| == NBUF && i <= NBUF
    ensures i <= r <= NBUF
    ensures r < NBUF ==> bufs[r].key == key && bufs[r].valid
    ensures forall j :: i <= j < r ==> !(bufs[j].key == key && bufs[j].valid)
    decreases |bufs| - i
  {
    if i == NBUF || (bufs[i].key == key && bufs[i].valid) then i else Holder(bufs, key, i + 1)
  }

  /** The contents of a block as the rest of the kernel sees them: those of a valid buffer, else
      those on disk. */
  function View(c: Cache, key: Key): Block
    requires Sized(c) && key in c.disk
  {
    var h := Holder(c.bufs, key, 0);
    if h < NBUF then c.bufs[h].data else c.disk[key]
  }

  ghost predicate SameView(c: Cache, c': Cache)
    requires Sized(c) && Sized(c')
  {
    c'.disk.Keys == c.disk.Keys && forall key :: key in c.disk && key.dev != 0 ==> View(c', key) == View(c, key)
  }

  // ----- what each operation keeps

  predicate Holds(e: Buf, key: Key) {
    e.key == key && e.valid
  }

  /** The first holder is determined by who holds the block. */
  lemma HolderIs(bufs: seq<Buf>, key: Key, h: nat)
    requires |bufs| == NBUF && h <= NBUF
    requires h < NBUF ==> Holds(bufs[h], key)
    requires forall j :: 0 <= j < h ==> !Holds(bufs[j], key)
    ensures Holder(bufs, key, 0) == h
  {
    var r := Holder(bufs, key, 0);
    assert r < h ==> !Holds(bufs[r], key);
  }

  /** One buffer changes but what it holds valid, and the disk, stay the same. */
  lemma SameContents(c: Cache, c': Cache, b: int)
    requires Sized(c) && Sized(c') && Unique(c) && Index(b) && c'.disk == c.disk
    requires c'.bufs == c.bufs[b := c'.bufs[b]]
    requires var e, e' := c.bufs[b], c'.bufs[b]; e'.valid == e.valid && (e.valid ==> e'.key == e.key && e'.data == e.data)
    ensures SameView(c, c')
  {
    forall key | key in c.disk && key.dev != 0 ensures View(c', key) == View(c, key) {
      HolderIs(c'.bufs, key, Holder(c.bufs, key, 0));
    }
  }

  lemma NotCached(c: Cache, key: Key)
    requires Inv(c) && !Cached(c, key)
    ensures forall b :: 0 <= b < NBUF ==> c.bufs[b].key != key
  {
    forall b | 0 <= b < NBUF ensures c.bufs[b].key != key {
      assert b in c.ring;
      var k :| 0 <= k < NBUF && c.ring[k] == b;
    }
  }

  /** Recycling drops only contents the disk has, and brings in no contents at all. */
  lemma RecycleSameView(c: Cache, key: Key, b: int, e: Buf)
    requires Inv(c) && Index(b) && !Cached(c, key) && key.dev != 0 && Reusable(c.bufs[b])
    requires e.key == key && !e.valid
    ensures SameView(c, c.(bufs := c.bufs[b := e]))
  {
    var c' := c.(bufs := c.bufs[b := e]);
    NotCached(c, key);
    assert Sound(c.bufs[b], c.disk);
    forall k | k in c.disk && k.dev != 0 ensures View(c', k) == View(c, k) {
      var h := Holder(c.bufs, k, 0);
      HolderIs(c'.bufs, k, if h != b then h else NBUF);
    }
  }

  lemma GetKeeps(c: Cache, key: Key)
    requires Inv(c) && Chosen(c, key) >= 0 && key.dev != 0
    ensures var c', b := Get(c, key), Chosen(c, key);
      && Inv(c') && SameView(c, c')
      && c' == c.(bufs := c.bufs[b := c'.bufs[b]])
      && c'.bufs[b].key == key && c'.bufs[b].refcnt > 0
  {
    var c', b := Get(c, key), Chosen(c, key);
    assert Sound(c.bufs[b], c.disk);
    if Cached(c, key) {
      SameContents(c, c', b);
    } else {
      NotCached(c, key);
      RecycleSameView(c, key, b, c'.bufs[b]);
    }
  }

  lemma PutKeeps(c: Cache, b: int, e: Buf)
    requires Inv(c) && Index(b) && Sound(e, c.disk) && e.key == c.bufs[b].key && e.released == c.bufs[b].released
    ensures Inv(c.(bufs := c.bufs[b := e]))
  {
  }

  lemma LockKeeps(c: Cache, b: int)
    requires Inv(c) && Index(b) && c.bufs[b].refcnt > 0
    ensures Inv(Lock(c, b)) && SameView(c, Lock(c, b))
  {
    assert Sound(c.bufs[b], c.disk);
    PutKeeps(c, b, c.bufs[b].(locked := true));
    SameContents(c, Lock(c, b), b);
  }

  /** Reading a block in leaves the buffer with its contents, and every view as it was. */
  lemma FillKeeps(c: Cache, b: int)
    requires Inv(c) && Index(b) && c.bufs[b].locked && c.bufs[b].key in c.disk
    ensures var c', e := Fill(c, b), c.bufs[b];
      && Inv(c') && SameView(c, c')
      && c'.bufs[b].valid && c'.bufs[b].data == View(c, e.key)
      && c' == c.(bufs := c.bufs[b := c'.bufs[b]]) && c'.bufs[b] == e.(valid := true, data := c'.bufs[b].data)
  {
    var c', e := Fill(c, b), c.bufs[b];
    assert Sound(e, c.disk);
    if e.valid {
      assert c' == c && c.bufs == c.bufs[b := e];
      ViewAt(c, b);
    } else {
      PutKeeps(c, b, c'.bufs[b]);
      forall k | k in c.disk && k.dev != 0 ensures View(c', k) == View(c, k) {
        var h := Holder(c.bufs, k, 0);
        assert k == e.key ==> h == NBUF;
        HolderIs(c'.bufs, k, if k == e.key then b else h);
      }
    }
  }

  lemma ViewAt(c: Cache, b: int)
    requires Inv(c) && Index(b) && c.bufs[b].valid && c.bufs[b].key in c.disk
    ensures View(c, c.bufs[b].key) == c.bufs[b].data
  {
    assert Sound(c.bufs[b], c.disk);
    HolderIs(c.bufs, c.bufs[b].key, b);
  }

  /** Changing a buffer that is held changes the view of its block and of no other. */
  lemma ModifyKeeps(c: Cache, b: int, data: Block)
    requires Inv(c) && Index(b) && c.bufs[b].locked && c.bufs[b].valid && c.bufs[b].key in c.disk
    ensures var c', key := Modify(c, b, data), c.bufs[b].key;
      && Inv(c') && View(c', key) == data
      && forall k :: k in c.disk && k.dev != 0 && k != key ==> View(c', k) == View(c, k)
  {
    var c', key := Modify(c, b, data), c.bufs[b].key;
    assert Sound(c.bufs[b], c.disk);
    PutKeeps(c, b, c'.bufs[b]);
    ViewAt(c', b);
    forall k | k in c.disk && k.dev != 0 && k != key ensures View(c', k) == View(c, k) {
      HolderIs(c'.bufs, k, Holder(c.bufs, k, 0));
    }
  }

  lemma PinKeeps(c: Cache, b: int)
    requires Inv(c) && Index(b) && c.bufs[b].locked && c.bufs[b].valid
    ensures Inv(Pin(c, b)) && SameView(c, Pin(c, b))
  {
    assert Sound(c.bufs[b], c.disk);
    PutKeeps(c, b, c.bufs[b].(dirty := true, changed := false));
    SameContents(c, Pin(c, b), b);
  }

  /** bwrite puts the view of the block on disk and changes no view. */
  lemma BWriteKeeps(c: Cache, b: int)
    requires Inv(c) && Index(b) && c.bufs[b].locked && c.bufs[b].valid && c.bufs[b].key in c.disk
    ensures var c', key := BWrite(c, b), c.bufs[b].key;
      && Inv(c') && SameView(c, c') && c'.disk == c.disk[key := View(c, key)]
  {
    var c', key := BWrite(c, b), c.bufs[b].key;
    assert Sound(c.bufs[b], c.disk);
    ViewAt(c, b);
    forall j | 0 <= j < NBUF ensures Sound(c'.bufs[j], c'.disk) {
      assert Sound(c.bufs[j], c.disk);
      assert j != b ==> c.bufs[j].key != key;
    }
    forall k | k in c.disk && k.dev != 0 ensures View(c', k) == View(c, k) {
      HolderIs(c'.bufs, k, Holder(c.bufs, k, 0));
    }
  }

  lemma ReleaseKeeps(c: Cache, b: int)
    requires Inv(c) && Index(b) && c.bufs[b].locked && !c.bufs[b].changed
    ensures b in c.ring && Inv(Release(c, b)) && SameView(c, Release(c, b)) && Release(c, b).disk == c.disk
  {
    assert Sound(c.bufs[b], c.disk);
    var c' := Release(c, b);
    SameContents(c, c', b);
    if c'.bufs[b].refcnt == 0 {
      FrontKeepsRing(c, b, c'.bufs[b]);
    } else {
      PutKeeps(c, b, c'.bufs[b]);
    }
  }

  lemma ToFrontIndex(ring: seq<int>, p: nat)
    requires p < |ring|
    ensures var r := ToFront(ring, p);
      |r| == |ring| && forall k :: 0 <= k < |r| ==> r[k] == ring[if k == 0 then p else if k <= p then k - 1 else k]
  {
  }

  lemma ToFrontMembers(ring: seq<int>, p: nat, x: int)
    requires p < |ring| && x in ring
    ensures x in ToFront(ring, p)
  {
    var k :| 0 <= k < |ring| && ring[k] == x;
    var r := ToFront(ring, p);
    assert if k == p then r[0] == x else if k < p then r[k + 1] == x else r[k] == x;
  }

  lemma FrontKeepsRing(c: Cache, b: int, e: Buf)
    requires Sized(c) && Ring(c) && Index(b) && e.released == c.now + 1
    ensures Sized(c.(bufs := c.bufs[b := e], ring := ToFront(c.ring, PosOf(c.ring, b)), now := c.now + 1))
    ensures Ring(c.(bufs := c.bufs[b := e], ring := ToFront(c.ring, PosOf(c.ring, b)), now := c.now + 1))
  {
    hide ToFront;
    hide PosOf;
    var p := PosOf(c.ring, b);
    ToFrontIndex(c.ring, p);
    forall x | 0 <= x < NBUF ensures x in ToFront(c.ring, p) {
      ToFrontMembers(c.ring, p, x);
    }
  }

  /** A miss recycles, among the buffers that are neither referenced nor pinned, the one released
      longest ago. */
  lemma VictimIsLeastRecent(c: Cache, key: Key)
    requires Inv(c) && !Cached(c, key) && Chosen(c, key) >= 0
    ensures var b := Chosen(c, key);
      && Reusable(c.bufs[b])
      && forall j :: 0 <= j < NBUF && j != b && Reusable(c.bufs[j]) ==>
           c.bufs[j].released > c.bufs[b].released || c.bufs[j].released == c.bufs[b].released == 0
  {
    var v := FindVictim(c.bufs, c.ring, |c.ring|);
    forall j | 0 <= j < NBUF && j != c.ring[v] && Reusable(c.bufs[j])
      ensures c.bufs[j].released > c.bufs[c.ring[v]].released || c.bufs[j].released == c.bufs[c.ring[v]].released == 0
    {
      assert j in c.ring;
      var k :| 0 <= k < NBUF && c.ring[k] == j;
      assert k < v;
    }
  }
}
