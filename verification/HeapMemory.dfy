/** The headers that umalloc.c keeps in memory, as the circular list they form, and what its
    assignments do to that list; and the books of who has which unit. */
module HeapMemory {
  import opened FreeList

  const NULL: int := -1

  datatype Header = Header(ptr: int, size: int)
  type Memory = map<int, Header>

  /** The i-th node of the circle: base, then the free blocks in order. */
  function Node(l: seq<Blk>, i: int): int
    requires 0 <= i <= |l|
  {
    if i == 0 then BASE else l[i - 1].addr
  }

  function Next(l: seq<Blk>, i: int): int
    requires 0 <= i <= |l|
  {
    if i == |l| then BASE else l[i].addr
  }

  /** Memory holds the circle: each node points to the next, the last to base, and each free block
      has its size in its header. */
  ghost predicate Holds(mem: Memory, l: seq<Blk>) {
    && BASE in mem && mem[BASE].size == 0
    && (forall i {:trigger Node(l, i)} :: 0 <= i <= |l| ==> Node(l, i) in mem && mem[Node(l, i)].ptr == Next(l, i))
    && (forall k :: 0 <= k < |l| ==> l[k].addr in mem && mem[l[k].addr].size == l[k].size)
  }

  /** Link block b in after node k, in place of the blocks from k up to d (none, or the one b has
      absorbed). */
  lemma LinkedHolds(mem: Memory, l: seq<Blk>, k: nat, d: nat, b: Blk)
    requires Coalesced(l) && Holds(mem, l) && k <= d <= |l| && b.addr > BASE
    requires forall j :: 0 <= j < |l| ==> l[j].addr != b.addr
    ensures var p := Node(l, k);
      p in mem && Holds(mem[b.addr := Header(Next(l, d), b.size)][p := Header(b.addr, mem[p].size)], l[..k] + [b] + l[d..])
  {
    var p := Node(l, k);
    var l', mem' := l[..k] + [b] + l[d..], mem[b.addr := Header(Next(l, d), b.size)][p := Header(b.addr, mem[p].size)];
    forall i | 0 <= i <= |l'| ensures Node(l', i) in mem' && mem'[Node(l', i)].ptr == Next(l', i) {
      if i < k {
        assert Node(l', i) == Node(l, i) && Node(l, i) in mem && mem[Node(l, i)].ptr == Next(l, i);
      } else if i == k {
        assert Node(l', i) == p;
      } else if i > k + 1 {
        assert Node(l', i) == Node(l, i - k - 1 + d) && mem[Node(l, i - k - 1 + d)].ptr == Next(l, i - k - 1 + d);
      }
    }
    forall j | 0 <= j < |l'| ensures l'[j].addr in mem' && mem'[l'[j].addr].size == l'[j].size {
      if j != k {
        assert l'[j] == l[if j < k then j else j - k - 1 + d];
      }
    }
  }

  /** Join block k to the one before it. */
  lemma JoinedHolds(mem: Memory, l: seq<Blk>, k: nat)
    requires Holds(mem, l) && 1 <= k < |l| && (forall i, j :: 0 <= i < j < |l| ==> l[i].addr < l[j].addr)
    requires forall j :: 0 <= j < |l| ==> l[j].addr > BASE
    ensures var p, b := l[k - 1].addr, l[k].addr;
      Holds(mem[p := Header(mem[b].ptr, mem[p].size + mem[b].size)], DownList(l, k))
  {
    var p, b := l[k - 1].addr, l[k].addr;
    var mem' := mem[p := Header(mem[b].ptr, mem[p].size + mem[b].size)];
    var l' := l[..k - 1] + [Blk(p, l[k - 1].size + l[k].size)] + l[k + 1..];
    assert Node(l, k + 1) == b;
    forall i | 0 <= i <= |l'| ensures Node(l', i) in mem' && mem'[Node(l', i)].ptr == Next(l', i) {
      if i < k {
        assert Node(l', i) == Node(l, i) && Node(l, i) in mem && mem[Node(l, i)].ptr == Next(l, i);
      } else if i > k {
        assert Node(l', i) == Node(l, i + 1) && mem[Node(l, i + 1)].ptr == Next(l, i + 1);
      }
    }
  }

  lemma NodeFacts(mem: Memory, l: seq<Blk>, k: nat)
    requires Holds(mem, l) && k <= |l|
    ensures var p := Node(l, k); p in mem && mem[p] == Header(Next(l, k), if k == 0 then 0 else l[k - 1].size)
    ensures k < |l| ==> l[k].addr in mem && mem[l[k].addr] == Header(Next(l, k + 1), l[k].size)
    ensures Next(l, k) in mem
  {
    assert k < |l| ==> Node(l, k + 1) == l[k].addr;
  }

  lemma PlaceFacts(l: seq<Blk>, b: Blk)
    requires Coalesced(l) && b.size >= 1 && b.addr > BASE && Apart(l, b)
    ensures var k := Place(l, b.addr, 0);
      && (k < |l| ==> End(b) <= l[k].addr) && (k > 0 ==> End(l[k - 1]) <= b.addr)
      && (forall j :: 0 <= j < |l| ==> l[j].addr != b.addr)
      && (k == |l| ==> End(b) != BASE) && b.addr != BASE
  {
    assert forall j :: 0 <= j < |l| ==> (End(l[j]) <= b.addr || End(b) <= l[j].addr) && l[j].size >= 1;
  }

  lemma StillSorted(l: seq<Blk>, k: nat, d: nat, b: Blk)
    requires Coalesced(l) && k <= d <= |l| && b.addr > BASE
    requires (k > 0 ==> l[k - 1].addr < b.addr) && (d < |l| ==> b.addr < l[d].addr)
    ensures var r := l[..k] + [b] + l[d..];
      && (forall i, j :: 0 <= i < j < |r| ==> r[i].addr < r[j].addr) && forall j :: 0 <= j < |r| ==> r[j].addr > BASE
  {
  }

  /** The list with b put in at position k and joined to the block above it if they touch. */
  function UpList(l: seq<Blk>, k: nat, b: Blk): seq<Blk>
    requires k <= |l|
  {
    if k < |l| && End(b) == l[k].addr then l[..k] + [Blk(b.addr, b.size + l[k].size)] + l[k + 1..] else l[..k] + [b] + l[k..]
  }

  /** The first half of free()'s assignments, with p made to point to bp. */
  function LinkUp(mem: Memory, p: int, bp: int): Memory
    requires p in mem && bp in mem && mem[p].ptr in mem
  {
    var n := mem[p].ptr;
    var b := if bp + mem[bp].size == n then Header(mem[n].ptr, mem[bp].size + mem[n].size) else Header(n, mem[bp].size);
    mem[bp := b][p := Header(bp, mem[p].size)]
  }

  /** All of free()'s assignments for the block at bp after node p. */
  function Inserted(mem: Memory, p: int, bp: int): Memory
    requires p in mem && bp in mem && mem[p].ptr in mem
  {
    var m := LinkUp(mem, p, bp);
    if p + mem[p].size == bp then m[p := Header(m[bp].ptr, m[p].size + m[bp].size)] else m
  }

  function DownList(l: seq<Blk>, k: nat): seq<Blk>
    requires 1 <= k < |l|
  {
    l[..k - 1] + [Blk(l[k - 1].addr, l[k - 1].size + l[k].size)] + l[k + 1..]
  }

  lemma JoinInTwo(l: seq<Blk>, k: nat, b: Blk)
    requires k <= |l|
    ensures k < |UpList(l, k, b)| && UpList(l, k, b)[k].addr == b.addr && (k > 0 ==> UpList(l, k, b)[k - 1] == l[k - 1])
    ensures JoinAt(l, k, b) == if k > 0 && End(l[k - 1]) == b.addr then DownList(UpList(l, k, b), k) else UpList(l, k, b)
  {
  }

  lemma LinkUpHolds(mem: Memory, l: seq<Blk>, b: Blk)
    requires Coalesced(l) && Holds(mem, l) && b.size >= 1 && b.addr > BASE && Apart(l, b)
    requires b.addr in mem && mem[b.addr].size == b.size
    ensures var k := Place(l, b.addr, 0); var p, r := Node(l, k), UpList(l, k, b);
      && p in mem && mem[p] == Header(Next(l, k), if k == 0 then 0 else l[k - 1].size) && mem[p].ptr in mem
      && Holds(LinkUp(mem, p, b.addr), r) && p != b.addr
      && (forall i, j :: 0 <= i < j < |r| ==> r[i].addr < r[j].addr) && forall j :: 0 <= j < |r| ==> r[j].addr > BASE
  {
    hide Holds;
    hide Apart;
    hide Place;
    var k := Place(l, b.addr, 0);
    NodeFacts(mem, l, k);
    PlaceFacts(l, b);
    var up := k < |l| && End(b) == l[k].addr;
    var d, b' := if up then k + 1 else k, if up then Blk(b.addr, b.size + l[k].size) else b;
    LinkUpIs(mem, l, k, b);
    hide Coalesced, Next, LinkUp, UpList;
    LinkedHolds(mem, l, k, d, b');
    StillSorted(l, k, d, b');
  }

  /** The assignments and the list, with the block above taken in if it touches. */
  lemma LinkUpIs(mem: Memory, l: seq<Blk>, k: nat, b: Blk)
    requires Holds(mem, l) && k <= |l| && b.addr in mem && mem[b.addr].size == b.size && Node(l, k) != b.addr
    requires (k == |l| ==> End(b) != BASE) && (k < |l| ==> l[k].addr != b.addr)
    ensures var up := k < |l| && End(b) == l[k].addr;
      var d, b' := if up then k + 1 else k, if up then Blk(b.addr, b.size + l[k].size) else b; var p := Node(l, k);
      && UpList(l, k, b) == l[..k] + [b'] + l[d..]
      && p in mem && mem[p].ptr in mem
      && LinkUp(mem, p, b.addr) == mem[b.addr := Header(Next(l, d), b'.size)][p := Header(b.addr, mem[p].size)]
  {
    NodeFacts(mem, l, k);
    hide Holds;
  }

  /** What free() assigns makes the circle of the list with the block freed into it. */
  lemma InsertedHolds(mem: Memory, l: seq<Blk>, b: Blk)
    requires Coalesced(l) && Holds(mem, l) && b.size >= 1 && b.addr > BASE && Apart(l, b)
    requires b.addr in mem && mem[b.addr].size == b.size
    ensures var p := Node(l, Place(l, b.addr, 0));
      p in mem && mem[p].ptr in mem && Holds(Inserted(mem, p, b.addr), FreeInto(l, b))
  {
    hide Holds;
    hide Apart;
    hide Place;
    hide Coalesced;
    hide UpList;
    hide DownList;
    hide LinkUp;
    hide JoinAt;
    var k := Place(l, b.addr, 0);
    LinkUpHolds(mem, l, b);
    JoinInTwo(l, k, b);
    if k > 0 && End(l[k - 1]) == b.addr {
      JoinedHolds(LinkUp(mem, Node(l, k), b.addr), UpList(l, k, b), k);
    }
  }

  // ----- malloc's assignments

  /** Unlink block k from the node before it. */
  lemma UnlinkedHolds(mem: Memory, l: seq<Blk>, k: nat)
    requires Coalesced(l) && Holds(mem, l) && k < |l|
    ensures var q, p := Node(l, k), l[k].addr;
      q in mem && p in mem && Holds(mem[q := Header(mem[p].ptr, mem[q].size)], TakeFrom(l, k, l[k].size))
  {
    var q, p := Node(l, k), l[k].addr;
    assert Node(l, k + 1) == p;
    var mem', l' := mem[q := Header(mem[p].ptr, mem[q].size)], l[..k] + l[k + 1..];
    forall i | 0 <= i <= |l'| ensures Node(l', i) in mem' && mem'[Node(l', i)].ptr == Next(l', i) {
      if i < k {
        assert Node(l', i) == Node(l, i) && mem[Node(l, i)].ptr == Next(l, i);
      } else if i > k {
        assert Node(l', i) == Node(l, i + 1) && mem[Node(l, i + 1)].ptr == Next(l, i + 1);
      }
    }
    forall j | 0 <= j < |l'| ensures l'[j].addr in mem' && mem'[l'[j].addr].size == l'[j].size {
      assert l'[j] == l[if j < k then j else j + 1];
    }
  }

  /** Cut n units off the end of block k; the piece gets a header of its own. */
  lemma ShrunkHolds(mem: Memory, l: seq<Blk>, k: nat, n: int, junk: int)
    requires Coalesced(l) && Holds(mem, l) && k < |l| && 1 <= n < l[k].size
    ensures var p := l[k].addr;
      && p in mem
      && Holds(mem[p := Header(mem[p].ptr, l[k].size - n)][End(l[k]) - n := Header(junk, n)], TakeFrom(l, k, n))
  {
    var p, t := l[k].addr, End(l[k]) - n;
    var mem', l' := mem[p := Header(mem[p].ptr, l[k].size - n)][t := Header(junk, n)], TakeFrom(l, k, n);
    forall j | 0 <= j < |l| ensures l[j].addr != t {
      assert j < k ==> End(l[j]) < p;
      assert j > k ==> End(l[k]) < l[j].addr;
    }
    forall i | 0 <= i <= |l'| ensures Node(l', i) in mem' && mem'[Node(l', i)].ptr == Next(l', i) {
      assert Node(l', i) == Node(l, i) && mem[Node(l, i)].ptr == Next(l, i);
    }
    forall j | 0 <= j < |l'| ensures l'[j].addr in mem' && mem'[l'[j].addr].size == l'[j].size {
      assert j != k ==> l'[j] == l[j];
    }
  }

  // ----- the books

  ghost predicate InAlloc(alloc: map<int, int>, u: int) {
    exists a :: a in alloc && Has(Blk(a, alloc[a]), u)
  }

  /** Free and allocated blocks are apart from each other and together cover exactly the units
      obtained from sbrk. */
  ghost predicate Balanced(l: seq<Blk>, alloc: map<int, int>, owned: set<int>) {
    && Coalesced(l)
    && (forall a :: a in alloc ==> a > BASE && alloc[a] >= 1 && Apart(l, Blk(a, alloc[a])))
    && (forall a, b :: a in alloc && b in alloc && a < b ==> a + alloc[a] <= b)
    && (forall u :: u in owned <==> Covers(l, u) || InAlloc(alloc, u))
  }

  /** Blocks are apart when they share no unit. */
  lemma ApartIff(l: seq<Blk>, b: Blk)
    requires b.size >= 1 && forall k :: 0 <= k < |l| ==> l[k].size >= 1
    ensures Apart(l, b) <==> forall u :: Covers(l, u) ==> !Has(b, u)
  {
    if forall u :: Covers(l, u) ==> !Has(b, u) {
      forall k | 0 <= k < |l| ensures End(l[k]) <= b.addr || End(b) <= l[k].addr {
        var u := if l[k].addr < b.addr then b.addr else l[k].addr;
        assert Has(l[k], l[k].addr);
        assert Has(l[k], u) ==> Covers(l, u);
      }
    }
  }

  lemma FreeBalances(l: seq<Blk>, alloc: map<int, int>, owned: set<int>, a: int)
    requires Balanced(l, alloc, owned) && a in alloc
    ensures Balanced(FreeInto(l, Blk(a, alloc[a])), alloc - {a}, owned)
  {
    var b := Blk(a, alloc[a]);
    var l', alloc' := FreeInto(l, b), alloc - {a};
    FreeIntoExact(l, b);
    forall x | x in alloc' ensures Apart(l', Blk(x, alloc'[x])) {
      ApartIff(l, Blk(x, alloc[x]));
      ApartIff(l', Blk(x, alloc[x]));
    }
    forall u ensures u in owned <==> Covers(l', u) || InAlloc(alloc', u) {
      if InAlloc(alloc, u) && !Has(b, u) {
        var x :| x in alloc && Has(Blk(x, alloc[x]), u);
        assert x in alloc' && Has(Blk(x, alloc'[x]), u);
      }
      if InAlloc(alloc', u) {
        var x :| x in alloc' && Has(Blk(x, alloc'[x]), u);
        assert x in alloc && Has(Blk(x, alloc[x]), u);
      }
      assert Has(b, u) ==> InAlloc(alloc, u);
    }
  }

  /** Units sbrk may hand out next: above base and not handed out before. */
  ghost predicate Fresh(owned: set<int>, b: Blk) {
    b.size >= 1 && b.addr > BASE && forall u :: Has(b, u) ==> u !in owned
  }

  ghost function Units(b: Blk): set<int> {
    set u | b.addr <= u < End(b) && Has(b, u)
  }

  lemma FreshApart(l: seq<Blk>, alloc: map<int, int>, owned: set<int>, b: Blk)
    requires Balanced(l, alloc, owned) && Fresh(owned, b)
    ensures Apart(l, b)
  {
    ApartIff(l, b);
  }

  lemma GrowBalances(l: seq<Blk>, alloc: map<int, int>, owned: set<int>, b: Blk)
    requires Balanced(l, alloc, owned) && Fresh(owned, b)
    ensures Balanced(FreeInto(l, b), alloc, owned + Units(b))
  {
    FreshApart(l, alloc, owned, b);
    FreeIntoExact(l, b);
    var l' := FreeInto(l, b);
    forall x | x in alloc ensures Apart(l', Blk(x, alloc[x])) {
      ApartIff(l, Blk(x, alloc[x]));
      ApartIff(l', Blk(x, alloc[x]));
      assert forall u :: Has(Blk(x, alloc[x]), u) ==> InAlloc(alloc, u);
    }
  }

  lemma TakeBalances(l: seq<Blk>, alloc: map<int, int>, owned: set<int>, k: nat, n: int)
    requires Balanced(l, alloc, owned) && k < |l| && 1 <= n <= l[k].size
    ensures var t := Taken(l, k, n); t.addr !in alloc && Balanced(TakeFrom(l, k, n), alloc[t.addr := n], owned)
  {
    var t := Taken(l, k, n);
    var l', alloc' := TakeFrom(l, k, n), alloc[t.addr := n];
    TakeFromExact(l, k, n);
    ApartIff(l', t);
    forall a | a in alloc ensures a + alloc[a] <= t.addr || End(t) <= a {
      assert End(l[k]) <= a || a + alloc[a] <= l[k].addr;
    }
    forall a | a in alloc ensures Apart(l', Blk(a, alloc[a])) {
      ApartIff(l, Blk(a, alloc[a]));
      ApartIff(l', Blk(a, alloc[a]));
    }
    forall u ensures InAlloc(alloc', u) <==> InAlloc(alloc, u) || Has(t, u) {
      if InAlloc(alloc, u) {
        var x :| x in alloc && Has(Blk(x, alloc[x]), u);
        assert x in alloc' && Has(Blk(x, alloc'[x]), u);
      }
      if Has(t, u) { assert t.addr in alloc' && Has(Blk(t.addr, alloc'[t.addr]), u); }
    }
  }
}
