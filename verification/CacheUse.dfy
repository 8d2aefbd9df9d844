/** What the fields of a buffer mean, told from the run alone: how many callers of bget have not
    called brelse yet, whether it waits for its bwrite, and when its last holder let go.  In these
    terms bget recycles the least recently used buffer that nobody uses and that needs no write. */
module CacheUse {
  import opened LogDisk
  import opened CacheModel
  import opened CacheRuns

  /** The step brings block `key` to buffer b: bget of the block that b holds afterwards. */
  ghost predicate Brings(r: Run, b: int)
    requires IsRun(r) && Index(b)
  {
    r.Then? && r.event.Gets? && Final(r).0.bufs[b].key == r.event.key
  }

  /** Callers of bget that have the buffer and have not called brelse. */
  ghost function Users(r: Run, b: int): int
    requires IsRun(r) && Index(b)
  {
    if r.Start? then 0
    else Users(r.before, b) + (if Brings(r, b) then 1 else if r.event == Releases(b) then -1 else 0)
  }

  /** Passed to log_write, and not written out since. */
  ghost predicate Awaits(r: Run, b: int)
    requires IsRun(r) && Index(b)
  {
    r.Then? && r.event != Writes(b) && (r.event == Pins(b) || Awaits(r.before, b))
  }

  /** Locked, and not released since. */
  ghost predicate Taken(r: Run, b: int)
    requires IsRun(r) && Index(b)
  {
    r.Then? && r.event != Releases(b) && (r.event == Locks(b) || Taken(r.before, b))
  }

  ghost function Length(r: Run): nat {
    if r.Start? then 0 else Length(r.before) + 1
  }

  /** The number of the step at which the last user let go; 0 if that never happened. */
  ghost function LetGo(r: Run, b: int): nat
    requires IsRun(r) && Index(b)
  {
    if r.Start? then 0
    else if r.event == Releases(b) && Users(r.before, b) == 1 then Length(r)
    else LetGo(r.before, b)
  }

  lemma GetsOne(c: Cache, key: Key, b: int)
    requires Inv(c) && Chosen(c, key) >= 0 && key.dev != 0 && Index(b)
    ensures var e, e' := c.bufs[b], Get(c, key).bufs[b];
      && (e'.key == key ==> e'.refcnt == e.refcnt + 1 && e'.released == e.released && e'.locked == e.locked)
      && (e'.key != key ==> e' == e)
      && e'.dirty == e.dirty && (e.refcnt > 0 || e.dirty ==> e'.key == e.key)
  {
    GetKeeps(c, key);
    var c', v := Get(c, key), Chosen(c, key);
    if b != v { assert c'.bufs[b] == c.bufs[b] && c'.bufs[v].key == key; }
  }

  /** What each step does to the fields of one buffer. */
  lemma StepOne(c: Cache, e: Event, b: int)
    requires Inv(c) && Enabled(c, e) && Index(b)
    ensures var x, y := c.bufs[b], Step(c, e).bufs[b];
      && y.refcnt == x.refcnt + (if e.Gets? && y.key == e.key then 1 else if e == Releases(b) then -1 else 0)
      && (y.dirty <==> e != Writes(b) && (e == Pins(b) || x.dirty))
      && (y.locked <==> e != Releases(b) && (e == Locks(b) || x.locked))
      && y.released == (if e == Releases(b) && x.refcnt == 1 then Step(c, e).now else x.released)
      && (x.refcnt > 0 || x.dirty ==> y.key == x.key)
    ensures Step(c, e).now == if e.Releases? && c.bufs[e.b].refcnt == 1 then c.now + 1 else c.now
  {
    hide Inv, Chosen;
    if e.Gets? {
      GetsOne(c, e.key, b);
    }
  }

  /** The reference count is the number of users, the dirty flag tells the buffers log_write has been
      told of and bwrite has not, and the lock is held from acquiresleep to brelse. */
  lemma {:induction false} FieldsTell(r: Run, b: int)
    requires IsRun(r) && BootedFirst(r) && Index(b)
    ensures var e := Final(r).0.bufs[b];
      && e.refcnt == Users(r, b) >= 0 && (e.dirty <==> Awaits(r, b)) && (e.locked <==> Taken(r, b))
  {
    CacheRefinesFlatDisk(r);
    assert Sound(Final(r).0.bufs[b], Final(r).0.disk);
    if r.Then? {
      hide Inv, Refines, Sound, Step, Enabled;
      FieldsTell(r.before, b);
      CacheRefinesFlatDisk(r.before);
      StepOne(Final(r.before).0, r.event, b);
    }
  }

  /** A buffer in use, or waiting for its write, keeps its block whatever step is taken. */
  lemma InUseKeepsBlock(r: Run, b: int)
    requires IsRun(r) && BootedFirst(r) && Index(b) && r.Then?
    requires Users(r.before, b) > 0 || Awaits(r.before, b)
    ensures Final(r).0.bufs[b].key == Final(r.before).0.bufs[b].key
  {
    hide Inv, Refines, Step, Enabled;
    FieldsTell(r.before, b);
    CacheRefinesFlatDisk(r.before);
    StepOne(Final(r.before).0, r.event, b);
  }

  /** The times of release order the buffers as the run does. */
  lemma {:induction false} ReleasedInOrder(r: Run, i: int, j: int)
    requires IsRun(r) && BootedFirst(r) && Index(i) && Index(j)
    ensures var c := Final(r).0;
      && LetGo(r, i) <= Length(r) && 0 <= c.bufs[i].released <= c.now
      && (c.bufs[i].released == 0 <==> LetGo(r, i) == 0)
      && (c.bufs[i].released < c.bufs[j].released <==> LetGo(r, i) < LetGo(r, j))
  {
    CacheRefinesFlatDisk(r);
    if r.Then? {
      CacheRefinesFlatDisk(r.before);
      ReleasedInOrder(r.before, i, j);
      ReleasedInOrder(r.before, j, i);
      ReleasedStep(r, i);
      ReleasedStep(r, j);
      hide Inv, Chosen, Get, Refines, Step;
    }
  }

  lemma ReleasedStep(r: Run, b: int)
    requires IsRun(r) && BootedFirst(r) && Index(b) && r.Then?
    ensures var c, c' := Final(r.before).0, Final(r).0;
      if r.event == Releases(b) && Users(r.before, b) == 1 then c'.bufs[b].released == c'.now == c.now + 1
      else c'.bufs[b].released == c.bufs[b].released && c'.now >= c.now
  {
    CacheRefinesFlatDisk(r.before);
    FieldsTell(r.before, b);
    hide Inv, Refines, Step, Enabled;
    StepOne(Final(r.before).0, r.event, b);
  }

  ghost predicate Spare(r: Run, b: int)
    requires IsRun(r) && Index(b)
  {
    Users(r, b) == 0 && !Awaits(r, b)
  }

  /** bget over any run from binit: the buffer that has the block, if there is one; otherwise a spare
      one that was let go before every other spare one, or never used; a panic iff there is none. */
  lemma RecyclesLeastRecentlyUsed(r: Run, key: Key)
    requires IsRun(r) && BootedFirst(r) && key.dev != 0
    ensures var c := Final(r).0; var b := Chosen(c, key);
      if exists i :: 0 <= i < NBUF && c.bufs[i].key == key then b >= 0 && c.bufs[b].key == key
      else
        && (b >= 0 ==> Spare(r, b) && forall j :: 0 <= j < NBUF && j != b && Spare(r, j) ==>
              LetGo(r, j) > LetGo(r, b) || LetGo(r, j) == LetGo(r, b) == 0)
        && (b < 0 <==> forall j :: 0 <= j < NBUF ==> !Spare(r, j))
  {
    var c := Final(r).0;
    var b := Chosen(c, key);
    CacheRefinesFlatDisk(r);
    forall j | 0 <= j < NBUF ensures Spare(r, j) <==> Reusable(c.bufs[j]) {
      FieldsTell(r, j);
    }
    HitIff(c, key);
    if !Cached(c, key) {
      SpareIff(c, key);
      if b >= 0 {
        VictimIsLeastRecent(c, key);
        hide Inv, Chosen, Spare, Users, LetGo, Final, IsRun, BootedFirst;
        forall j | 0 <= j < NBUF && j != b && Spare(r, j)
          ensures LetGo(r, j) > LetGo(r, b) || LetGo(r, j) == LetGo(r, b) == 0
        {
          ReleasedInOrder(r, b, j);
          ReleasedInOrder(r, j, b);
        }
      }
    }
  }

  lemma HitIff(c: Cache, key: Key)
    requires Inv(c)
    ensures Cached(c, key) <==> exists i :: 0 <= i < NBUF && c.bufs[i].key == key
    ensures Cached(c, key) ==> Chosen(c, key) >= 0 && c.bufs[Chosen(c, key)].key == key
  {
    var h := FindHit(c.bufs, c.ring, key, 0);
    forall i | 0 <= i < NBUF && c.bufs[i].key == key ensures h < NBUF {
      assert i in c.ring;
      var k :| 0 <= k < NBUF && c.ring[k] == i;
    }
    if h < NBUF { assert c.bufs[c.ring[h]].key == key; }
  }

  lemma SpareIff(c: Cache, key: Key)
    requires Inv(c) && !Cached(c, key)
    ensures Chosen(c, key) >= 0 ==> Reusable(c.bufs[Chosen(c, key)])
    ensures Chosen(c, key) < 0 <==> forall j :: 0 <= j < NBUF ==> !Reusable(c.bufs[j])
  {
    var v := FindVictim(c.bufs, c.ring, |c.ring|);
    if v < 0 {
      forall j | 0 <= j < NBUF ensures !Reusable(c.bufs[j]) {
        assert j in c.ring;
        var k :| 0 <= k < NBUF && c.ring[k] == j;
      }
    }
  }
}
