/** The next/prev/head/tail pointers of the four ready queues, as slot numbers with NOSLOT for a
    null pointer, and what the pointer assignments of add_to_queue and remove_from_queue make of
    them. */
module SchedLinks {
  import opened SchedTable

  datatype Links = Links(head: seq<int>, tail: seq<int>, next: seq<int>, prev: seq<int>)

  ghost predicate Sized(k: Links) {
    |k.head| == |k.tail| == NLEVEL && |k.next| == |k.prev| == NPROC
  }

  function At(q: seq<int>, k: int): int {
    if 0 <= k < |q| then q[k] else NOSLOT
  }

  /** List l runs through q, forwards and backwards. */
  ghost predicate Chain(k: Links, l: int, q: seq<int>)
    requires Sized(k) && 0 <= l < NLEVEL && Slots(q)
  {
    && k.head[l] == At(q, 0)
    && k.tail[l] == At(q, |q| - 1)
    && (forall i {:trigger k.prev[q[i]]} :: 0 <= i < |q| ==> k.prev[q[i]] == At(q, i - 1))
    && (forall i {:trigger k.next[q[i]]} :: 0 <= i < |q| ==> k.next[q[i]] == At(q, i + 1))
  }

  /** The lists run through the queues, and a process on no queue has null links. */
  ghost predicate Represents(k: Links, t: Table)
    requires Shape(t)
  {
    && Sized(k)
    && (forall l :: 0 <= l < NLEVEL ==> Chain(k, l, t.queues[l]))
    && (forall i :: 0 <= i < NPROC && !Queued(t, i) ==> k.next[i] == NOSLOT && k.prev[i] == NOSLOT)
  }

  function SpliceBefore(k: Links, l: int, p: int, c: int): (r: Links)
    requires Sized(k) && 0 <= l < NLEVEL && Slot(p) && Slot(c) && (Slot(k.prev[c]) || k.prev[c] == NOSLOT)
    ensures Sized(r)
  {
    var b := k.prev[c];
    var next := k.next[p := c];
    Links(if b == NOSLOT then k.head[l := p] else k.head, k.tail,
          if b == NOSLOT then next else next[b := p], k.prev[p := b][c := p])
  }

  function SpliceLast(k: Links, l: int, p: int): (r: Links)
    requires Sized(k) && 0 <= l < NLEVEL && Slot(p)
    requires k.head[l] == NOSLOT || Slot(k.tail[l])
    ensures Sized(r)
  {
    if k.head[l] == NOSLOT then k.(head := k.head[l := p], tail := k.tail[l := p])
    else k.(next := k.next[k.tail[l] := p], prev := k.prev[p := k.tail[l]], tail := k.tail[l := p])
  }

  function SpliceOut(k: Links, l: int, p: int): (r: Links)
    requires Sized(k) && 0 <= l < NLEVEL && Slot(p)
    requires Slot(k.prev[p]) || k.prev[p] == NOSLOT
    requires Slot(k.next[p]) || k.next[p] == NOSLOT
    ensures Sized(r)
  {
    var b, n := k.prev[p], k.next[p];
    Links(if b == NOSLOT then k.head[l := n] else k.head,
          if n == NOSLOT then k.tail[l := b] else k.tail,
          (if b == NOSLOT then k.next else k.next[b := n])[p := NOSLOT],
          (if n == NOSLOT then k.prev else k.prev[n := b])[p := NOSLOT])
  }

  lemma SpliceBeforeChain(k: Links, l: int, q: seq<int>, i: nat, p: int)
    requires Sized(k) && 0 <= l < NLEVEL && Slots(q) && Distinct(q) && Chain(k, l, q)
    requires i < |q| && Slot(p) && p !in q && k.next[p] == NOSLOT
    ensures Slot(k.prev[q[i]]) || k.prev[q[i]] == NOSLOT
    ensures Chain(SpliceBefore(k, l, p, q[i]), l, InsertAt(q, i, p))
  {
    assert k.prev[q[i]] == At(q, i - 1);
    var r, k' := InsertAt(q, i, p), SpliceBefore(k, l, p, q[i]);
    forall j | 0 <= j < |r| ensures k'.prev[r[j]] == At(r, j - 1) && k'.next[r[j]] == At(r, j + 1) {
      if j < i {
        assert k.prev[q[j]] == At(q, j - 1) && k.next[q[j]] == At(q, j + 1);
      } else if j > i {
        assert k.prev[q[j - 1]] == At(q, j - 2) && k.next[q[j - 1]] == At(q, j);
      }
    }
  }

  lemma SpliceLastChain(k: Links, l: int, q: seq<int>, p: int)
    requires Sized(k) && 0 <= l < NLEVEL && Slots(q) && Distinct(q) && Chain(k, l, q)
    requires Slot(p) && p !in q && k.next[p] == NOSLOT && k.prev[p] == NOSLOT
    ensures k.head[l] == NOSLOT || Slot(k.tail[l])
    ensures Chain(SpliceLast(k, l, p), l, InsertAt(q, |q|, p))
  {
    var r, k' := InsertAt(q, |q|, p), SpliceLast(k, l, p);
    forall j | 0 <= j < |r| ensures k'.prev[r[j]] == At(r, j - 1) && k'.next[r[j]] == At(r, j + 1) {
      if j < |q| {
        assert k.prev[q[j]] == At(q, j - 1) && k.next[q[j]] == At(q, j + 1);
      }
    }
  }

  lemma SpliceOutChain(k: Links, l: int, q: seq<int>, i: nat)
    requires Sized(k) && 0 <= l < NLEVEL && Slots(q) && Distinct(q) && Chain(k, l, q) && i < |q|
    ensures Slot(k.prev[q[i]]) || k.prev[q[i]] == NOSLOT
    ensures Slot(k.next[q[i]]) || k.next[q[i]] == NOSLOT
    ensures Chain(SpliceOut(k, l, q[i]), l, RemoveAt(q, i))
  {
    assert k.prev[q[i]] == At(q, i - 1) && k.next[q[i]] == At(q, i + 1);
    var r, k' := RemoveAt(q, i), SpliceOut(k, l, q[i]);
    forall j | 0 <= j < |r| ensures k'.prev[r[j]] == At(r, j - 1) && k'.next[r[j]] == At(r, j + 1) {
      if j < i {
        assert k.prev[q[j]] == At(q, j - 1) && k.next[q[j]] == At(q, j + 1);
      } else {
        assert k.prev[q[j + 1]] == At(q, j) && k.next[q[j + 1]] == At(q, j + 2);
      }
    }
  }

  /** A chain does not see changes at other lists and other slots. */
  lemma ChainFrame(k: Links, k': Links, l: int, q: seq<int>)
    requires Sized(k) && Sized(k') && 0 <= l < NLEVEL && Slots(q) && Chain(k, l, q)
    requires k'.head[l] == k.head[l] && k'.tail[l] == k.tail[l]
    requires forall x :: x in q ==> k'.next[x] == k.next[x] && k'.prev[x] == k.prev[x]
    ensures Chain(k', l, q)
  {
  }

  /** The links after add_to_queue has found the position i. */
  function LinksAfterAdd(k: Links, level: int, q: seq<int>, i: nat, p: int): (r: Links)
    requires Sized(k) && 0 <= level < NLEVEL && Slots(q) && Chain(k, level, q) && i <= |q| && Slot(p)
    ensures Sized(r)
  {
    if i < |q| then assert k.prev[q[i]] == At(q, i - 1); SpliceBefore(k, level, p, q[i])
    else SpliceLast(k, level, p)
  }

  /** What the loop of add_to_queue leaves represents the table with p inserted in order. */
  lemma AddRepresents(k: Links, t: Table, p: int, level: int)
    requires Queues(t) && Represents(k, t) && Slot(p) && 0 <= level < NLEVEL && !Queued(t, p)
    ensures var t' := AddToQueue(t, p, level); var q := t.queues[level];
      Represents(LinksAfterAdd(k, level, q, InsertPos(t'.procs, q, p, 0), p), t')
  {
    hide Chain;
    hide InsertPos;
    hide InsertAt;
    hide LinksAfterAdd;
    hide SortedQueue;
    var t' := AddToQueue(t, p, level);
    var q := t.queues[level];
    var i := InsertPos(t'.procs, q, p, 0);
    var k' := LinksAfterAdd(k, level, q, i, p);
    AddToQueueKeepsQueues(t, p, level);
    assert WellFormedQueue(t, level);
    AddedChain(k, level, q, i, p);
    TouchesOnly(k, level, q, i, p);
    forall l | 0 <= l < NLEVEL ensures Chain(k', l, t'.queues[l]) {
      if l != level {
        assert WellFormedQueue(t, l);
        ChainFrame(k, k', l, t.queues[l]);
      }
    }
  }

  lemma AddedChain(k: Links, level: int, q: seq<int>, i: nat, p: int)
    requires Sized(k) && 0 <= level < NLEVEL && Slots(q) && Distinct(q) && Chain(k, level, q) && i <= |q|
    requires Slot(p) && p !in q && k.next[p] == NOSLOT && k.prev[p] == NOSLOT
    ensures Chain(LinksAfterAdd(k, level, q, i, p), level, InsertAt(q, i, p))
  {
    if i < |q| { SpliceBeforeChain(k, level, q, i, p); } else { SpliceLastChain(k, level, q, p); }
  }

  lemma TouchesOnly(k: Links, level: int, q: seq<int>, i: nat, p: int)
    requires Sized(k) && 0 <= level < NLEVEL && Slots(q) && Chain(k, level, q) && i <= |q| && Slot(p)
    ensures var k' := LinksAfterAdd(k, level, q, i, p);
      && (forall l :: 0 <= l < NLEVEL && l != level ==> k'.head[l] == k.head[l] && k'.tail[l] == k.tail[l])
      && (forall x :: 0 <= x < NPROC && x !in q && x != p ==> k'.next[x] == k.next[x] && k'.prev[x] == k.prev[x])
  {
    if i < |q| { assert k.prev[q[i]] == At(q, i - 1); }
  }

  /** Taking a queued process out of its list represents the table without it. */
  lemma RemoveRepresents(k: Links, t: Table, p: int)
    requires Queues(t) && Represents(k, t) && Slot(p) && Queued(t, p)
    ensures Slot(k.prev[p]) || k.prev[p] == NOSLOT
    ensures Slot(k.next[p]) || k.next[p] == NOSLOT
    ensures Represents(SpliceOut(k, t.procs[p].level, p), RemoveFromQueue(t, p))
  {
    hide Chain;
    hide SpliceOut;
    hide SortedQueue;
    var level := t.procs[p].level;
    var q := t.queues[level];
    var i := IndexOf(q, p);
    assert WellFormedQueue(t, level);
    SpliceOutChain(k, level, q, i);
    SpliceOutTouchesOnly(k, level, q, i);
    var t', k' := RemoveFromQueue(t, p), SpliceOut(k, level, p);
    RemoveFromQueueKeepsQueues(t, p);
    forall l | 0 <= l < NLEVEL ensures Chain(k', l, t'.queues[l]) {
      if l != level {
        assert WellFormedQueue(t, l);
        ChainFrame(k, k', l, t.queues[l]);
      }
    }
  }

  lemma SpliceOutTouchesOnly(k: Links, l: int, q: seq<int>, i: nat)
    requires Sized(k) && 0 <= l < NLEVEL && Slots(q) && Distinct(q) && Chain(k, l, q) && i < |q|
    ensures Slot(k.prev[q[i]]) || k.prev[q[i]] == NOSLOT
    ensures Slot(k.next[q[i]]) || k.next[q[i]] == NOSLOT
    ensures var k' := SpliceOut(k, l, q[i]);
      && (forall m :: 0 <= m < NLEVEL && m != l ==> k'.head[m] == k.head[m] && k'.tail[m] == k.tail[m])
      && (forall x :: 0 <= x < NPROC && x !in q ==> k'.next[x] == k.next[x] && k'.prev[x] == k.prev[x])
      && k'.next[q[i]] == NOSLOT && k'.prev[q[i]] == NOSLOT
  {
    assert k.prev[q[i]] == At(q, i - 1) && k.next[q[i]] == At(q, i + 1);
  }

  /** The guard of remove_from_queue is exact: null links and not the head of its list means
      on no queue at all. */
  lemma RemoveGuardExact(k: Links, t: Table, p: int)
    requires Queues(t) && Represents(k, t) && Slot(p)
    ensures k.prev[p] == NOSLOT && k.next[p] == NOSLOT && k.head[t.procs[p].level] != p <==> !Queued(t, p)
  {
    var q := t.queues[t.procs[p].level];
    assert WellFormedQueue(t, t.procs[p].level);
    if Queued(t, p) {
      var i: int := IndexOf(q, p);
      assert k.prev[q[i]] == At(q, i - 1);
    }
  }

  /** Every pointer add_to_queue follows leads to a slot. */
  lemma ChainPointers(k: Links, l: int, q: seq<int>, i: nat)
    requires Sized(k) && 0 <= l < NLEVEL && Slots(q) && Chain(k, l, q) && i <= |q|
    ensures i < |q| ==> Slot(k.prev[q[i]]) || k.prev[q[i]] == NOSLOT
    ensures k.head[l] == NOSLOT || Slot(k.tail[l])
  {
    if i < |q| { assert k.prev[q[i]] == At(q, i - 1); }
  }

  lemma SameQueuesRepresent(k: Links, t: Table, t': Table)
    requires Shape(t) && Shape(t') && Represents(k, t) && t'.queues == t.queues
    requires forall i :: 0 <= i < NPROC ==> (Queued(t', i) <==> Queued(t, i))
    ensures Represents(k, t')
  {
  }

  lemma NullLinksRepresent(k: Links)
    requires Sized(k)
    requires forall l :: 0 <= l < NLEVEL ==> k.head[l] == NOSLOT && k.tail[l] == NOSLOT
    requires forall i :: 0 <= i < NPROC ==> k.next[i] == NOSLOT && k.prev[i] == NOSLOT
    ensures Represents(k, BeforeBoot())
  {
  }
}
