/** The buffer cache over whole runs: whatever its users do, block by block it behaves like a flat
    disk that only the holders of buffers change. */
module CacheRuns {
  import opened LogDisk
  import opened CacheModel

  datatype Event =
    | Gets(key: Key)
    | Locks(b: int)
    | Fills(b: int)
    | Modifies(b: int, data: Block)
    | Pins(b: int)
    | Writes(b: int)
    | Releases(b: int)

  predicate Held(c: Cache, b: int)
    requires Sized(c)
  {
    Index(b) && c.bufs[b].locked
  }

  /** The users' side of the contract: lock what you have referenced, read before you change, and
      log_write or bwrite a buffer you changed before you release it. */
  predicate Enabled(c: Cache, e: Event)
    requires Sized(c)
  {
    match e
    case Gets(key) => Chosen(c, key) >= 0 && key.dev != 0
    case Locks(b) => Index(b) && c.bufs[b].refcnt > 0 && !c.bufs[b].locked
    case Fills(b) => Held(c, b) && c.bufs[b].key in c.disk
    case Modifies(b, _) => Held(c, b) && c.bufs[b].valid && c.bufs[b].key in c.disk
    case Pins(b) => Held(c, b) && c.bufs[b].valid
    case Writes(b) => Held(c, b) && c.bufs[b].valid && c.bufs[b].key in c.disk
    case Releases(b) => Held(c, b) && !c.bufs[b].changed && b in c.ring
  }

  function Step(c: Cache, e: Event): (r: Cache)
    requires Sized(c) && Enabled(c, e)
    ensures Sized(r)
  {
    match e
    case Gets(key) => Get(c, key)
    case Locks(b) => Lock(c, b)
    case Fills(b) => Fill(c, b)
    case Modifies(b, data) => Modify(c, b, data)
    case Pins(b) => Pin(c, b)
    case Writes(b) => BWrite(c, b)
    case Releases(b) => Release(c, b)
  }

  /** The flat disk the users see: only changing a buffer's data changes it. */
  function FlatStep(flat: map<Key, Block>, c: Cache, e: Event): map<Key, Block>
    requires Sized(c) && Enabled(c, e)
  {
    match e
    case Modifies(b, data) => flat[c.bufs[b].key := data]
    case _ => flat
  }

  ghost predicate Refines(c: Cache, flat: map<Key, Block>)
    requires Sized(c)
  {
    flat.Keys == c.disk.Keys && forall key :: key in c.disk && key.dev != 0 ==> View(c, key) == flat[key]
  }

  lemma StepKeeps(c: Cache, e: Event, flat: map<Key, Block>)
    requires Inv(c) && Enabled(c, e) && Refines(c, flat)
    ensures Inv(Step(c, e)) && Refines(Step(c, e), FlatStep(flat, c, e))
  {
    hide Inv;
    hide View;
    hide Chosen;
    match e {
      case Gets(key) => GetKeeps(c, key);
      case Locks(b) => LockKeeps(c, b);
      case Fills(b) => FillKeeps(c, b);
      case Modifies(b, data) => ModifyKeeps(c, b, data);
      case Pins(b) => PinKeeps(c, b);
      case Writes(b) => BWriteKeeps(c, b);
      case Releases(b) => ReleaseKeeps(c, b);
    }
  }

  datatype Run = Start(c: Cache, flat: map<Key, Block>) | Then(before: Run, event: Event)

  ghost predicate IsRun(r: Run)
    decreases r, 0
  {
    match r
    case Start(c, _) => Sized(c)
    case Then(r', e) => IsRun(r') && Enabled(Final(r').0, e)
  }

  ghost function Final(r: Run): (s: (Cache, map<Key, Block>))
    requires IsRun(r)
    ensures Sized(s.0)
    decreases r, 1
  {
    match r
    case Start(c, flat) => (c, flat)
    case Then(r', e) => var (c, flat) := Final(r'); (Step(c, e), FlatStep(flat, c, e))
  }

  /** binit: the buffers in reverse order, all empty. */
  function Booted(disk: map<Key, Block>, blank: Block): (c: Cache)
    ensures Sized(c)
  {
    Cache(seq(NBUF, i => Buf(Key(0, 0), false, false, 0, false, blank, false, 0)), seq(NBUF, i => NBUF - 1 - i), disk, 0)
  }

  lemma BootedInv(disk: map<Key, Block>, blank: Block)
    ensures Inv(Booted(disk, blank)) && Refines(Booted(disk, blank), disk)
  {
    var c := Booted(disk, blank);
    forall b | 0 <= b < NBUF ensures b in c.ring {
      assert c.ring[NBUF - 1 - b] == b;
    }
    forall key | key in disk ensures View(c, key) == disk[key] {
      HolderIs(c.bufs, key, NBUF);
    }
  }

  ghost predicate BootedFirst(r: Run) {
    match r
    case Start(c, flat) => exists disk, blank :: c == Booted(disk, blank) && flat == disk
    case Then(r', _) => BootedFirst(r')
  }

  /** From binit on, over any run: the ring is a permutation of the buffers in order of last
      release, no block is in two buffers, and every block reads as on the flat disk. */
  lemma {:induction false} CacheRefinesFlatDisk(r: Run)
    requires IsRun(r) && BootedFirst(r)
    ensures Inv(Final(r).0) && Refines(Final(r).0, Final(r).1)
  {
    hide Inv;
    hide Refines;
    match r {
      case Start(c, flat) =>
        var disk, blank :| c == Booted(disk, blank) && flat == disk;
        BootedInv(disk, blank);
      case Then(r', e) =>
        CacheRefinesFlatDisk(r');
        StepKeeps(Final(r').0, e, Final(r').1);
    }
  }
}
