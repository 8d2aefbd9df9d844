/** umalloc.c as it is written: headers in memory, a rover freep, and loops that chase pointers
    round the circular free list.  Addresses are counted in units of one header; `base`, which lies
    below the heap, is number 0.  Ghost fields hold the free list in address order, the allocated
    blocks and the units that headers claim. */
module Umalloc {
  import opened FreeList
  import opened HeapMemory

  const HEADER: int := 8
  const MINUNITS: int := 4096
  const UINT: int := 0x1_0000_0000

  /** The units malloc asks for, in unsigned 32-bit arithmetic: the header and the payload. */
  function UnitsFor(nbytes: int): (n: int)
    requires 0 <= nbytes < UINT
    ensures 1 <= n
  {
    (nbytes + HEADER - 1) % UINT / HEADER + 1
  }

  const KERNBASE: int := 0x8000_0000

  /** What sbrk gets for nu units: the byte count wraps around, and sbrk takes an int. */
  function ByteArg(nu: int): int {
    var bytes := nu * HEADER % UINT;
    if bytes < UINT / 2 then bytes else bytes - UINT
  }

  /** What sbrk returns, or -1, and the size of the process afterwards. */
  datatype Brk = Brk(ret: int, sz: int)

  /** sbrk on a process of sz bytes: growproc with allocuvm, which may find no memory, for n > 0,
      with deallocuvm for n < 0, and without either for 0. */
  function Sbrk(sz: int, n: int, memory: bool): Brk {
    var newsz := (sz + n) % UINT;
    if n > 0 then
      if newsz >= KERNBASE then Brk(-1, sz)
      else if newsz < sz then Brk(sz, sz)
      else if !memory then Brk(-1, sz)
      else Brk(sz, newsz)
    else if n < 0 then
      if newsz >= sz then Brk(sz, sz) else if newsz == 0 then Brk(-1, sz) else Brk(sz, newsz)
    else Brk(sz, sz)
  }

  function Granted(nu: int): int {
    if nu < MINUNITS then MINUNITS else nu
  }

  /** morecore gets the units it asked for exactly when their bytes are a positive int; with more
      units sbrk grants nothing, or even takes memory away, and mostly does not refuse. */
  lemma SbrkGrantsIff(sz: int, nu: int, memory: bool)
    requires 0 < sz < KERNBASE && 1 <= nu <= UINT / HEADER
    ensures var m := Granted(nu); var r := Sbrk(sz, ByteArg(m), memory);
      && (m * HEADER < KERNBASE ==>
            r == if sz + m * HEADER < KERNBASE && memory then Brk(sz, sz + m * HEADER) else Brk(-1, sz))
      && (m * HEADER >= KERNBASE ==> r.sz <= sz && (r.ret == sz || (r.ret == -1 && sz + m * HEADER == UINT)))
  {
  }

  /** A block is large enough for its payload exactly when the size does not wrap around; and that
      and what sbrk is asked for are both right exactly up to two headers below 2^31. */
  lemma PayloadFitsIff(nbytes: int)
    requires 0 <= nbytes < UINT
    ensures var n := UnitsFor(nbytes);
      && 1 <= n <= UINT / HEADER
      && ((n - 1) * HEADER >= nbytes <==> nbytes + HEADER - 1 < UINT)
      && ((n - 2) * 8 < nbytes || nbytes == 0)
      && ((n - 1) * HEADER >= nbytes && n * HEADER < KERNBASE <==> nbytes <= KERNBASE - 2 * HEADER)
      && (n * HEADER < KERNBASE <==> ByteArg(Granted(n)) == Granted(n) * HEADER)
  {
  }

  /** The largest request: one unit, its header, and no room for the payload. */
  lemma RoundingWraps()
    ensures UnitsFor(0xFFFF_FFFF) == 1
  {
  }

  /** A request whose rounding is right, but for which sbrk is asked for nothing and grants nothing,
      while the new header claims 2^29 units. */
  lemma ByteCountWraps(sz: int, memory: bool)
    ensures var n := UnitsFor(0xFFFF_FFF8);
      n == 0x2000_0000 && (n - 1) * HEADER >= 0xFFFF_FFF8 && Sbrk(sz, ByteArg(Granted(n)), memory) == Brk(sz, sz)
  {
  }

  /** The first request that fails: the byte count is negative as an int, and sbrk returns the
      break without moving it. */
  lemma ByteCountTurnsNegative(sz: int, memory: bool)
    requires 0 < sz < KERNBASE
    ensures var n := UnitsFor(KERNBASE - 2 * HEADER + 1);
      ByteArg(Granted(n)) < 0 && Sbrk(sz, ByteArg(Granted(n)), memory) == Brk(sz, sz)
  {
  }

  class Heap {
    var mem: Memory
    var freep: int
    var sz: int
    ghost var free: seq<Blk>
    ghost var alloc: map<int, int>
    ghost var owned: set<int>

    /** The free list is one circle in address order, fully coalesced; free and allocated blocks
        make up exactly what the headers of granted blocks claim; allocated blocks have their sizes in
        their headers. */
    ghost predicate Valid()
      reads this
    {
      && Balanced(free, alloc, owned)
      && (forall a :: a in alloc ==> a in mem && mem[a].size == alloc[a])
      && if freep == NULL then free == [] && alloc == map[] && owned == {}
         else Holds(mem, free) && IsNode(free, freep)
    }

    /** The process really has all the memory that headers claim. */
    ghost predicate Backed()
      reads this
    {
      && 0 < sz < KERNBASE && sz % HEADER == 0 && sz / HEADER > BASE
      && forall u :: u in owned ==> u < sz / HEADER
    }

    /** There is room for nbytes at r, in its block and in the process. */
    ghost predicate HoldsPayload(r: int, nbytes: int)
      reads this
    {
      r - 1 in alloc && nbytes <= (alloc[r - 1] - 1) * HEADER && r * HEADER + nbytes <= sz
    }

    constructor (sz: int)
      requires HEADER <= sz < KERNBASE && sz % HEADER == 0
      ensures Valid() && Backed() && freep == NULL && alloc == map[] && owned == {}
    {
      mem, freep, free, alloc, owned, this.sz := map[], NULL, [], map[], {}, sz;
    }

    /** free()'s search: the node after which the block belongs. */
    method FindPlace(bp: int) returns (p: int)
      requires Coalesced(free) && Holds(mem, free) && IsNode(free, freep) && bp > BASE
      requires forall k :: 0 <= k < |free| ==> free[k].addr != bp
      ensures p == Node(free, Place(free, bp, 0)) && p in mem && mem[p].ptr in mem
    {
      hide Holds;
      hide Coalesced;
      hide Place;
      p := freep;
      ghost var n, goal := |free| + 1, Place(free, bp, 0);
      ghost var i: int :| 0 <= i <= |free| && p == Node(free, i);
      NodeFacts(mem, free, i);
      StopsAtPlace(free, bp, i);
      while !(bp > p && bp < mem[p].ptr)
        invariant 0 <= i <= |free| && p == Node(free, i) && p in mem && mem[p].ptr == Next(free, i) && mem[p].ptr in mem
        invariant i == goal <==> (bp > p && bp < mem[p].ptr) || (p >= mem[p].ptr && (bp > p || bp < mem[p].ptr))
        decreases if i <= goal then goal - i else goal - i + n
      {
        if p >= mem[p].ptr && (bp > p || bp < mem[p].ptr) {
          break;
        }
        p := mem[p].ptr;
        i := if i == |free| then 0 else i + 1;
        NodeFacts(mem, free, i);
        StopsAtPlace(free, bp, i);
      }
    }

    /** free()'s assignments once the place is found. */
    method LinkIn(p: int, bp: int)
      requires p in mem && bp in mem && mem[p].ptr in mem && p != bp
      modifies this`mem
      ensures mem == Inserted(old(mem), p, bp)
    {
      var n := mem[p].ptr;
      if bp + mem[bp].size == n {
        mem := mem[bp := Header(mem[n].ptr, mem[bp].size + mem[n].size)];
      } else {
        mem := mem[bp := Header(n, mem[bp].size)];
      }
      if p + mem[p].size == bp {
        mem := mem[p := Header(mem[bp].ptr, mem[p].size + mem[bp].size)];
      } else {
        mem := mem[p := Header(bp, mem[p].size)];
      }
    }

    /** free() for a block whose header is at bp. */
    method Insert(bp: int)
      requires Coalesced(free) && Holds(mem, free) && IsNode(free, freep)
      requires bp in mem && bp > BASE && mem[bp].size >= 1 && Apart(free, Blk(bp, mem[bp].size))
      modifies this`mem, this`freep, this`free
      ensures free == FreeInto(old(free), Blk(bp, old(mem)[bp].size)) && Coalesced(free) && Holds(mem, free)
      ensures IsNode(old(free), freep) && IsNode(free, freep) && freep != NULL
      ensures RoverBefore(old(free), freep, bp)
      ensures forall a :: a in old(mem) && a != freep && a != bp ==> a in mem && mem[a] == old(mem)[a]
    {
      hide Holds;
      hide Apart;
      hide Coalesced;
      hide FreeInto;
      ghost var b := Blk(bp, mem[bp].size);
      PlaceFacts(free, b);
      InsertedHolds(mem, free, b);
      FreeIntoExact(free, b);
      StaysNode(free, b);
      var p := FindPlace(bp);
      NotItself(free, b);
      BeforePlace(free, bp);
      LinkIn(p, bp);
      freep := p;
      free := FreeInto(free, b);
    }

    /** free(). */
    method Free(ap: int)
      requires Valid() && ap - 1 in alloc
      modifies this
      ensures Valid() && alloc == old(alloc) - {ap - 1} && owned == old(owned) && sz == old(sz)
      ensures free == FreeInto(old(free), Blk(ap - 1, old(alloc)[ap - 1])) && RoverBefore(old(free), freep, ap - 1)
    {
      hide Holds;
      hide Apart;
      hide Coalesced;
      hide FreeInto;
      var bp := ap - 1;
      FreeBalances(free, alloc, owned, bp);
      AllocNotNodes(free, alloc, owned);
      Insert(bp);
      alloc := alloc - {bp};
    }

    /** morecore(): the new block's header claims what was asked for, whatever sbrk granted. */
    method Morecore(nu: int, memory: bool) returns (p: int)
      requires Valid() && Backed() && freep != NULL && 1 <= nu <= UINT / HEADER
      modifies this
      ensures Valid() && alloc == old(alloc) && freep != NULL
      ensures var r := Sbrk(old(sz), ByteArg(Granted(nu)), memory);
        && sz == r.sz && p == (if r.ret == -1 then NULL else freep)
        && (r.ret == -1 ==> owned == old(owned) && free == old(free) && mem == old(mem) && freep == old(freep))
        && (r.ret != -1 ==>
              && owned == old(owned) + Units(Blk(old(sz) / HEADER, Granted(nu)))
              && free == FreeInto(old(free), Blk(old(sz) / HEADER, Granted(nu)))
              && RoverBefore(old(free), freep, old(sz) / HEADER))
      ensures Backed() <==> p == NULL || Granted(nu) * HEADER < KERNBASE
      ensures p != NULL && Backed() ==> sz == old(sz) + 8 * if nu < 4096 then 4096 else nu
    {
      hide Holds;
      hide Apart;
      hide Coalesced;
      hide FreeInto;
      var m := if nu < MINUNITS then MINUNITS else nu;
      SbrkGrantsIff(sz, nu, memory);
      var r := Sbrk(sz, ByteArg(m), memory);
      ghost var b := Blk(sz / HEADER, m);
      ClaimedUnits(owned, b, r.sz / HEADER);
      sz := r.sz;
      if r.ret == -1 { return NULL; }
      var hp := r.ret / HEADER;
      Claim(hp, m);
      p := freep;
    }

    /** The new block gets its header and is freed. */
    method Claim(hp: int, m: int)
      requires Valid() && freep != NULL && Fresh(owned, Blk(hp, m))
      modifies this`mem, this`freep, this`free, this`owned
      ensures Valid() && freep != NULL
      ensures owned == old(owned) + Units(Blk(hp, m)) && free == FreeInto(old(free), Blk(hp, m))
      ensures RoverBefore(old(free), freep, hp)
    {
      hide Holds;
      hide Apart;
      hide Coalesced;
      hide FreeInto;
      ghost var b := Blk(hp, m);
      GrowBalances(free, alloc, owned, b);
      FreshApart(free, alloc, owned, b);
      AllocNotNodes(free, alloc, owned);
      FreshNotKnown(free, alloc, owned, b);
      HeaderOutside(mem, free, hp, Header(0, m));
      mem := mem[hp := Header(0, m)];
      Insert(hp);
      owned := owned + Units(b);
    }

    /** malloc's assignments once a block is found: all of it, or n units off its end. */
    method Take(prevp: int, p: int, n: int, ghost k: nat) returns (t: int)
      requires Valid() && freep != NULL && k < |free| && p == free[k].addr && prevp == Node(free, k) && 1 <= n <= free[k].size
      modifies this
      ensures Valid() && owned == old(owned) && freep == prevp && freep != NULL && sz == old(sz)
      ensures t == Taken(old(free), k, n).addr && t !in old(alloc) && alloc == old(alloc)[t := n]
      ensures free == TakeFrom(old(free), k, n)
    {
      hide Holds;
      hide Balanced;
      hide TakeFrom;
      BalancedIsCoalesced(free, alloc, owned);
      hide Coalesced;
      NodeFacts(mem, free, k);
      TakeBalances(free, alloc, owned, k, n);
      AllocNotNodes(free, alloc, owned);
      AllocNotTaken(free, alloc, owned, k, n);
      TakeKeepsNode(free, k, n);
      if mem[p].size == n {
        UnlinkedHolds(mem, free, k);
        mem := mem[prevp := Header(mem[p].ptr, mem[prevp].size)];
        t := p;
      } else {
        ShrunkHolds(mem, free, k, n, 0);
        mem := mem[p := Header(mem[p].ptr, mem[p].size - n)];
        t := p + mem[p].size;
        mem := mem[t := Header(0, n)];
      }
      freep := prevp;
      free := TakeFrom(free, k, n);
      alloc := alloc[t := n];
    }

    /** Once round the circle from the rover, up to the first block of n units or more. */
    method FindFit(n: int) returns (prevp: int, p: int)
      requires Coalesced(free) && Holds(mem, free) && IsNode(free, freep)
      ensures prevp in mem && p in mem && mem[prevp].ptr == p && IsNode(free, prevp) && IsNode(free, p)
      ensures mem[p].size < n ==> forall k :: 0 <= k < |free| ==> free[k].size < n
      ensures mem[p].size >= n ==> FitsLater(free, freep, n, p)
    {
      ghost var rest := CircleFrom(mem, free, freep);
      HeadersTell(mem, free);
      hide Holds;
      hide Coalesced;
      hide IsNode;
      AheadStarts(mem, free, rest, freep);
      AllFit(free, n, rest);
      hide Ahead, FitsIn, FitsLater, InOrder, HeadersAgree;
      prevp := freep;
      p := mem[prevp].ptr;
      while mem[p].size < n && p != freep
        invariant Ahead(mem, free, rest, freep) && rest != [] && p == rest[0] && p in mem && IsNode(free, p)
        invariant prevp in mem && IsNode(free, prevp) && mem[prevp].ptr == p
        invariant FitsIn(free, n, rest) && InOrder(rest, freep)
        decreases |rest|
      {
        AheadGoesOn(mem, free, rest, freep);
        PassOver(mem, free, n, rest, freep);
        prevp := p;
        p := mem[p].ptr;
        rest := rest[1..];
      }
      if mem[p].size >= n { RestIsLater(free, n, rest, freep); } else { NothingFits(mem, free, n, rest, freep); }
    }

    /** malloc's loop up to the block it takes: once round, then if nothing fits morecore, and once
        round again; NULL if morecore fails. */
    method Search(n: int, memory: bool) returns (prevp: int, p: int, ghost k: nat)
      requires Valid() && Backed() && freep != NULL && 1 <= n <= UINT / HEADER
      modifies this
      ensures Valid() && freep != NULL && alloc == old(alloc)
      ensures var brk := Sbrk(old(sz), ByteArg(Granted(n)), memory);
        && (p == NULL <==> !Fits(old(free), n) && brk.ret == -1)
        && sz == (if Fits(old(free), n) then old(sz) else brk.sz)
        && (Fits(old(free), n) || p == NULL ==> owned == old(owned) && free == old(free))
        && (!Fits(old(free), n) && p != NULL ==> owned == old(owned) + Units(Blk(old(sz) / HEADER, Granted(n))))
      ensures p != NULL ==> k < |free| && p == free[k].addr && prevp == Node(free, k) && free[k].size >= n
      ensures p != NULL ==> FirstFit(free, freep, n, k) && (Fits(old(free), n) ==> freep == old(freep))
      ensures p != NULL && !Fits(old(free), n) ==>
        var b := Blk(old(sz) / HEADER, Granted(n)); free == FreeInto(old(free), b) && RoverBefore(old(free), freep, b.addr)
      ensures p != NULL && n * HEADER >= KERNBASE ==> Taken(free, k, n).addr == old(sz) / HEADER && sz <= old(sz)
      ensures Backed() <==> p == NULL || n * HEADER < KERNBASE
    {
      hide Holds, Balanced, Coalesced, IsNode, Sbrk, ByteArg;
      SbrkGrantsIff(sz, n, memory);
      BalancedIsCoalesced(free, alloc, owned);
      FitsAreSmall(free, alloc, owned, sz / HEADER);
      prevp, p := FindFit(n);
      k := 0;
      if mem[p].size < n {
        p := Morecore(n, memory);
        if p == NULL { return; }
        BalancedIsCoalesced(free, alloc, owned);
        SomeBlockFits(old(free), Blk(old(sz) / HEADER, Granted(n)));
        prevp, p := FindFit(n);
        k := FoundBlock(mem, free, prevp, p, n);
        if n * HEADER >= KERNBASE { OnlyNewFits(old(free), Blk(old(sz) / HEADER, n), k, n); }
      } else {
        k := FoundBlock(mem, free, prevp, p, n);
      }
      AboveNull(free, alloc, owned, k);
      AddrsDiffer(free, alloc, owned);
    }

    /** malloc().  What is returned has room for nbytes exactly up to two headers below 2^31. */
    method Malloc(nbytes: int, memory: bool) returns (r: int)
      requires Valid() && Backed() && 0 <= nbytes < UINT
      modifies this
      ensures Valid()
      ensures var n := UnitsFor(nbytes); var brk := Sbrk(old(sz), ByteArg(Granted(n)), memory);
        && (r == NULL <==> !Fits(old(free), n) && brk.ret == -1)
        && sz == (if Fits(old(free), n) then old(sz) else brk.sz)
        && (r == NULL ==> alloc == old(alloc) && owned == old(owned) && free == old(free))
        && (r != NULL ==>
              && r - 1 !in old(alloc) && alloc == old(alloc)[r - 1 := n]
              && owned == if Fits(old(free), n) then old(owned) else old(owned) + Units(Blk(old(sz) / HEADER, Granted(n))))
      ensures r != NULL ==> TakenFirst(old(free), old(freep), old(sz) / HEADER, UnitsFor(nbytes), r - 1, free, freep)
      ensures r != NULL ==> (HoldsPayload(r, nbytes) <==> nbytes <= KERNBASE - 2 * HEADER)
      ensures Backed() <==> r == NULL || UnitsFor(nbytes) * HEADER < KERNBASE
    {
      hide Holds, Balanced, Coalesced, IsNode, Sbrk, ByteArg, UnitsFor, Granted, Fits;
      hide TakeFrom, Taken, TakenFirst, FirstFit, RoverBefore;
      PayloadFitsIff(nbytes);
      var n := UnitsFor(nbytes);
      if freep == NULL {
        mem := mem[BASE := Header(BASE, 0)];
        freep := BASE;
        EmptyCircle(mem);
        assert !Fits(free, n) by { NoBlocksFitNothing(n); }
      }
      var prevp, p;
      ghost var k;
      prevp, p, k := Search(n, memory);
      if p == NULL { return NULL; }
      TakenFirstIs(old(free), old(freep), freep, old(sz) / HEADER, n, free, k);
      var t := Take(prevp, p, n, k);
      r := t + 1;
      AboveBase(free, alloc, owned, t);
      if Backed() { BlockBelow(free, alloc, owned, t, sz / HEADER); }
    }
  }

  /** How the free list changes: the end of the first fitting block from the rover on is taken, or all
      of it; if nothing fitted, after the new block at the break has been freed.  The rover is left
      at the node before. */
  ghost predicate TakenFirst(l: seq<Blk>, rover: int, brk: int, n: int, t: int, l': seq<Blk>, rover': int) {
    exists k: nat, from: int :: TakenAt(Grown(l, brk, n), k, from, n, t, l', rover')
      && if Fits(l, n) then from == rover else RoverBefore(l, from, brk)
  }

  /** The free list malloc takes from: with at least 4096 units more if nothing in it is large enough. */
  ghost function Grown(l: seq<Blk>, brk: int, n: int): seq<Blk> {
    if Fits(l, n) then l else FreeInto(l, Blk(brk, if n < 4096 then 4096 else n))
  }

  ghost predicate TakenAt(l: seq<Blk>, k: nat, from: int, n: int, t: int, l': seq<Blk>, rover': int) {
    && k < |l| && FirstFit(l, from, n, k)
    && t + n == l[k].addr + l[k].size
    && l' == (if l[k].size == n then l[..k] + l[k + 1..] else l[k := Blk(l[k].addr, l[k].size - n)])
    && rover' == if k == 0 then BASE else l[k - 1].addr
  }

  lemma TakenFirstIs(l: seq<Blk>, rover: int, from: int, brk: int, n: int, all: seq<Blk>, k: nat)
    requires k < |all| && FirstFit(all, from, n, k)
    requires Fits(l, n) ==> all == l && from == rover
    requires !Fits(l, n) ==> all == FreeInto(l, Blk(brk, Granted(n))) && RoverBefore(l, from, brk)
    ensures TakenFirst(l, rover, brk, n, Taken(all, k, n).addr, TakeFrom(all, k, n), Node(all, k))
  {
    hide FirstFit, FreeInto, RoverBefore;
    assert TakenAt(Grown(l, brk, n), k, from, n, Taken(all, k, n).addr, TakeFrom(all, k, n), Node(all, k));
  }

  /** Block k fits, and every other block that does comes later from the rover on. */
  ghost predicate FirstFit(l: seq<Blk>, rover: int, n: int, k: nat)
    requires k < |l|
  {
    l[k].size >= n && forall j :: 0 <= j < |l| && j != k && l[j].size >= n ==> Earlier(rover, l[k].addr, l[j].addr)
  }

  ghost predicate Fits(l: seq<Blk>, n: int) {
    exists k :: 0 <= k < |l| && l[k].size >= n
  }

  lemma NoBlocksFitNothing(n: int)
    ensures !Fits([], n)
  {
  }

  lemma AddrsDiffer(l: seq<Blk>, alloc: map<int, int>, owned: set<int>)
    requires Balanced(l, alloc, owned)
    ensures forall i, j :: 0 <= i < j < |l| ==> l[i].addr != l[j].addr
  {
  }

  lemma AboveNull(l: seq<Blk>, alloc: map<int, int>, owned: set<int>, k: nat)
    requires Balanced(l, alloc, owned) && k < |l|
    ensures l[k].addr > BASE
  {
  }

  lemma ClaimedUnits(owned: set<int>, b: Blk, top: int)
    requires b.size >= 1 && b.addr > BASE && forall u :: u in owned ==> u < b.addr
    ensures Fresh(owned, b)
    ensures (forall u :: u in owned + Units(b) ==> u < top) <==> End(b) <= top && forall u :: u in owned ==> u < top
  {
    assert End(b) - 1 in Units(b);
    var all := owned + Units(b);
    if forall u :: u in all ==> u < top {
      assert End(b) - 1 in all;
      forall u | u in owned ensures u < top { assert u in all; }
    }
  }

  /** Blocks lie below the end of what is owned. */
  lemma FitsAreSmall(l: seq<Blk>, alloc: map<int, int>, owned: set<int>, top: int)
    requires Balanced(l, alloc, owned) && forall u :: u in owned ==> u < top
    ensures forall k :: 0 <= k < |l| ==> BASE < l[k].addr && End(l[k]) <= top && l[k].size < top
  {
    forall k | 0 <= k < |l| ensures BASE < l[k].addr && End(l[k]) <= top && l[k].size < top {
      assert Has(l[k], End(l[k]) - 1) && Covers(l, End(l[k]) - 1);
    }
  }

  lemma BlockBelow(l: seq<Blk>, alloc: map<int, int>, owned: set<int>, t: int, top: int)
    requires Balanced(l, alloc, owned) && t in alloc && forall u :: u in owned ==> u < top
    ensures t + alloc[t] <= top
  {
    assert Has(Blk(t, alloc[t]), t + alloc[t] - 1) && InAlloc(alloc, t + alloc[t] - 1);
  }

  /** If nothing fitted before, what is taken now is the new block itself. */
  lemma OnlyNewFits(l: seq<Blk>, b: Blk, k: nat, n: int)
    requires Coalesced(l) && b.size == n >= 1 && (forall j :: 0 <= j < |l| ==> l[j].size < n && End(l[j]) <= b.addr)
    requires k < |FreeInto(l, b)| && FreeInto(l, b)[k].size >= n
    ensures Taken(FreeInto(l, b), k, n).addr == b.addr
  {
    assert Place(l, b.addr, 0) == |l|;
  }

  lemma BalancedIsCoalesced(l: seq<Blk>, alloc: map<int, int>, owned: set<int>)
    requires Balanced(l, alloc, owned)
    ensures Coalesced(l) && BASE !in alloc
  {
  }

  lemma NotItself(l: seq<Blk>, b: Blk)
    requires b.addr > BASE && forall j :: 0 <= j < |l| ==> l[j].addr != b.addr
    requires Coalesced(l)
    ensures Node(l, Place(l, b.addr, 0)) != b.addr && Node(l, Place(l, b.addr, 0)) != NULL
  {
  }

  ghost predicate IsNode(l: seq<Blk>, p: int) {
    exists i :: 0 <= i <= |l| && p == Node(l, i)
  }

  /** The two tests of free()'s loop stop it at the right node and at no other. */
  lemma StopsAtPlace(l: seq<Blk>, bp: int, i: int)
    requires Coalesced(l) && 0 <= i <= |l| && bp > BASE && forall k :: 0 <= k < |l| ==> l[k].addr != bp
    ensures var p, n := Node(l, i), Next(l, i);
      i == Place(l, bp, 0) <==> (bp > p && bp < n) || (p >= n && (bp > p || bp < n))
  {
    var k := Place(l, bp, 0);
    assert 0 < i < k ==> l[i].addr < bp;
    assert i > k ==> l[k].addr <= l[i - 1].addr;
  }

  /** The node in front of a freed block is still a node. */
  lemma StaysNode(l: seq<Blk>, b: Blk)
    ensures IsNode(FreeInto(l, b), Node(l, Place(l, b.addr, 0)))
  {
    var k := Place(l, b.addr, 0);
    var l' := FreeInto(l, b);
    if k > 0 {
      assert Node(l', k) == l[k - 1].addr;
    } else {
      assert Node(l', 0) == BASE;
    }
  }

  /** Headers of allocated blocks are not nodes of the list. */
  lemma AllocNotNodes(l: seq<Blk>, alloc: map<int, int>, owned: set<int>)
    requires Balanced(l, alloc, owned)
    ensures forall a :: a in alloc ==> !IsNode(l, a)
  {
    forall a, i | a in alloc && 0 <= i <= |l| ensures a != Node(l, i) {
      assert i > 0 ==> End(l[i - 1]) <= a || End(Blk(a, alloc[a])) <= l[i - 1].addr;
    }
  }

  lemma FreshNotKnown(l: seq<Blk>, alloc: map<int, int>, owned: set<int>, b: Blk)
    requires Balanced(l, alloc, owned) && Fresh(owned, b)
    ensures !IsNode(l, b.addr) && b.addr !in alloc
  {
    assert Has(b, b.addr);
    forall a | a in alloc ensures InAlloc(alloc, a) { assert Has(Blk(a, alloc[a]), a); }
    forall i | 0 <= i <= |l| ensures b.addr != Node(l, i) {
      assert i > 0 ==> Has(l[i - 1], l[i - 1].addr) && Covers(l, l[i - 1].addr);
    }
  }

  lemma HeaderOutside(mem: Memory, l: seq<Blk>, a: int, h: Header)
    requires Holds(mem, l) && !IsNode(l, a)
    ensures Holds(mem[a := h], l)
  {
    var mem' := mem[a := h];
    assert Node(l, 0) == BASE;
    forall i | 0 <= i <= |l| ensures Node(l, i) in mem' && mem'[Node(l, i)].ptr == Next(l, i) {
      assert Node(l, i) != a;
    }
    forall k | 0 <= k < |l| ensures l[k].addr in mem' && mem'[l[k].addr].size == l[k].size {
      assert Node(l, k + 1) == l[k].addr;
    }
  }

  lemma AllocNotTaken(l: seq<Blk>, alloc: map<int, int>, owned: set<int>, k: nat, n: int)
    requires Balanced(l, alloc, owned) && k < |l| && 1 <= n <= l[k].size
    ensures forall a :: a in alloc ==> a != l[k].addr && a != Taken(l, k, n).addr && a != Node(l, k)
  {
    AllocNotNodes(l, alloc, owned);
    forall a | a in alloc ensures a != l[k].addr && a != Taken(l, k, n).addr {
      assert End(l[k]) <= a || End(Blk(a, alloc[a])) <= l[k].addr;
    }
  }

  lemma TakeKeepsNode(l: seq<Blk>, k: nat, n: int)
    requires Coalesced(l) && k < |l|
    ensures IsNode(TakeFrom(l, k, n), Node(l, k)) && Node(l, k) != NULL
  {
    assert Node(TakeFrom(l, k, n), k) == Node(l, k);
  }

  // ----- going round the circle

  function Nodes(l: seq<Blk>): (r: seq<int>)
    ensures |r| == |l| + 1 && forall i :: 0 <= i <= |l| ==> r[i] == Node(l, i)
  {
    seq(|l| + 1, i requires 0 <= i <= |l| => Node(l, i))
  }

  /** rest are nodes that lead one to the next and end at the rover, which is not among the others. */
  ghost predicate Ahead(mem: Memory, l: seq<Blk>, rest: seq<int>, rover: int) {
    && rest != [] && rest[|rest| - 1] == rover
    && (forall j :: 0 <= j < |rest| ==> rest[j] in mem && IsNode(l, rest[j]))
    && (forall j {:trigger mem[rest[j]]} :: 0 <= j < |rest| - 1 ==> mem[rest[j]].ptr == rest[j + 1])
    && (forall j :: 0 <= j < |rest| - 1 ==> rest[j] != rover)
  }

  /** The nodes after the f-th, round to the f-th itself. */
  function Circle(l: seq<Blk>, f: nat): (r: seq<int>)
    requires f <= |l|
    ensures |r| == |l| + 1
  {
    Nodes(l)[f + 1..] + Nodes(l)[..f + 1]
  }

  lemma CircleAt(l: seq<Blk>, f: nat, j: nat)
    requires f <= |l| && j <= |l|
    ensures Circle(l, f)[j] == Node(l, if f + 1 + j <= |l| then f + 1 + j else f + j - |l|)
  {
  }

  lemma CircleStep(mem: Memory, l: seq<Blk>, f: nat, j: nat)
    requires Coalesced(l) && Holds(mem, l) && f <= |l| && j <= |l|
    ensures var r := Circle(l, f);
      && r[j] in mem && IsNode(l, r[j])
      && (j < |l| ==> mem[r[j]].ptr == r[j + 1] && r[j] != Node(l, f)) && r[|l|] == Node(l, f)
  {
    hide Holds;
    hide Circle;
    NodesDiffer(l);
    CircleAt(l, f, j);
    CircleAt(l, f, |l|);
    if j < |l| { CircleAt(l, f, j + 1); }
    NodeFacts(mem, l, if f + 1 + j <= |l| then f + 1 + j else f + j - |l|);
  }

  lemma CircleHas(l: seq<Blk>, f: nat, k: nat)
    requires f <= |l| && k < |l|
    ensures l[k].addr in Circle(l, f)
  {
    hide Circle;
    CircleAt(l, f, if k + 1 > f then k - f else |l| - f + k + 1);
  }

  lemma CircleFrom(mem: Memory, l: seq<Blk>, rover: int) returns (rest: seq<int>)
    requires Coalesced(l) && Holds(mem, l) && IsNode(l, rover)
    ensures Ahead(mem, l, rest, rover) && rover in mem && mem[rover].ptr == rest[0]
    ensures forall k :: 0 <= k < |l| ==> l[k].addr in rest
    ensures InOrder(rest, rover)
  {
    hide Holds, Coalesced, Circle, Ahead, InOrder;
    var f :| 0 <= f <= |l| && rover == Node(l, f);
    hide IsNode;
    rest := Circle(l, f);
    NodeFacts(mem, l, f);
    CircleAt(l, f, 0);
    CircleAhead(mem, l, f);
    CircleHasAll(l, f);
    CircleInOrder(l, f);
  }

  /** Going up from the rover and round past base, a comes before b. */
  predicate Earlier(rover: int, a: int, b: int) {
    if a > rover then b > a || b <= rover else a < b <= rover
  }

  ghost predicate InOrder(rest: seq<int>, rover: int) {
    forall i, j :: 0 <= i < j < |rest| ==> Earlier(rover, rest[i], rest[j])
  }

  lemma CircleInOrder(l: seq<Blk>, f: nat)
    requires Coalesced(l) && f <= |l|
    ensures InOrder(Circle(l, f), Node(l, f))
  {
    hide Circle;
    NodesRise(l);
    hide Coalesced, Node;
    var r := Circle(l, f);
    forall i, j | 0 <= i < j < |r| ensures Earlier(Node(l, f), r[i], r[j]) {
      CircleAt(l, f, i);
      CircleAt(l, f, j);
    }
  }

  lemma NodesRise(l: seq<Blk>)
    requires Coalesced(l)
    ensures forall i, j :: 0 <= i < j <= |l| ==> Node(l, i) < Node(l, j)
  {
  }

  /** The last node below the freed block: free() leaves the rover there. */
  predicate RoverBefore(l: seq<Blk>, rover: int, bp: int) {
    && rover < bp && (rover == BASE || exists k :: 0 <= k < |l| && l[k].addr == rover)
    && forall k :: 0 <= k < |l| && l[k].addr < bp ==> l[k].addr <= rover
  }

  lemma BeforePlace(l: seq<Blk>, bp: int)
    requires Coalesced(l) && bp > BASE && forall k :: 0 <= k < |l| ==> l[k].addr != bp
    ensures RoverBefore(l, Node(l, Place(l, bp, 0)), bp)
  {
    var k := Place(l, bp, 0);
    hide Place;
    forall j | 0 <= j < |l| && l[j].addr < bp ensures l[j].addr <= Node(l, k) {
      assert j < k;
    }
  }

  lemma CircleHasAll(l: seq<Blk>, f: nat)
    requires f <= |l|
    ensures forall k :: 0 <= k < |l| ==> l[k].addr in Circle(l, f)
  {
    hide Circle;
    forall k | 0 <= k < |l| ensures l[k].addr in Circle(l, f) { CircleHas(l, f, k); }
  }

  lemma CircleAhead(mem: Memory, l: seq<Blk>, f: nat)
    requires Coalesced(l) && Holds(mem, l) && f <= |l|
    ensures Ahead(mem, l, Circle(l, f), Node(l, f))
  {
    hide Holds, Coalesced, Circle, IsNode, Node;
    var rest := Circle(l, f);
    CircleStep(mem, l, f, |l|);
    forall j | 0 <= j < |rest| ensures rest[j] in mem && IsNode(l, rest[j]) && (j < |l| ==> rest[j] != Node(l, f)) {
      CircleStep(mem, l, f, j);
    }
    forall j {:trigger mem[rest[j]]} | 0 <= j < |rest| - 1 ensures mem[rest[j]].ptr == rest[j + 1] {
      CircleStep(mem, l, f, j);
    }
  }

  lemma NodesDiffer(l: seq<Blk>)
    requires Coalesced(l)
    ensures forall i, j :: 0 <= i < j <= |l| ==> Node(l, i) != Node(l, j)
  {
  }

  ghost predicate HeadersAgree(mem: Memory, l: seq<Blk>) {
    forall k :: 0 <= k < |l| ==> l[k].addr in mem && mem[l[k].addr].size == l[k].size
  }

  lemma HeadersTell(mem: Memory, l: seq<Blk>)
    requires Holds(mem, l)
    ensures HeadersAgree(mem, l)
  {
  }

  lemma EmptyCircle(mem: Memory)
    requires BASE in mem && mem[BASE] == Header(BASE, 0)
    ensures Holds(mem, []) && IsNode([], BASE)
  {
    assert Node([], 0) == BASE;
  }

  lemma AboveBase(l: seq<Blk>, alloc: map<int, int>, owned: set<int>, a: int)
    requires Balanced(l, alloc, owned) && a in alloc
    ensures a > BASE
  {
  }

  lemma FoundBlock(mem: Memory, l: seq<Blk>, prevp: int, p: int, n: int) returns (k: nat)
    requires Coalesced(l) && Holds(mem, l) && IsNode(l, prevp) && IsNode(l, p) && prevp in mem && mem[prevp].ptr == p
    requires p in mem && mem[p].size >= n >= 1
    ensures k < |l| && p == l[k].addr && prevp == Node(l, k) && l[k].size >= n
  {
    var i :| 0 <= i <= |l| && prevp == Node(l, i);
    var j :| 0 <= j <= |l| && p == Node(l, j);
    NodeFacts(mem, l, i);
    NodeFacts(mem, l, j);
    k := i;
  }

  lemma AheadStarts(mem: Memory, l: seq<Blk>, rest: seq<int>, rover: int)
    requires Ahead(mem, l, rest, rover)
    ensures rest != [] && rest[0] in mem && IsNode(l, rest[0]) && IsNode(l, rover) && rover in mem
  {
  }

  lemma AheadGoesOn(mem: Memory, l: seq<Blk>, rest: seq<int>, rover: int)
    requires Ahead(mem, l, rest, rover) && rest[0] != rover
    ensures |rest| > 1 && mem[rest[0]].ptr == rest[1] && Ahead(mem, l, rest[1..], rover) && rest[1] in mem && IsNode(l, rest[1])
    ensures forall x :: x in rest && x != rest[0] ==> x in rest[1..]
  {
    assert rest == [rest[0]] + rest[1..];
    var r := rest[1..];
    assert forall j :: 0 <= j < |r| ==> r[j] == rest[j + 1];
    forall j {:trigger mem[r[j]]} | 0 <= j < |r| - 1 ensures mem[r[j]].ptr == r[j + 1] {
      assert mem[rest[j + 1]].ptr == rest[j + 2];
    }
  }

  /** Every block of n units or more is still to be met. */
  ghost predicate FitsIn(l: seq<Blk>, n: int, rest: seq<int>) {
    forall k :: 0 <= k < |l| && l[k].size >= n ==> l[k].addr in rest
  }

  lemma AllFit(l: seq<Blk>, n: int, rest: seq<int>)
    requires forall k :: 0 <= k < |l| ==> l[k].addr in rest
    ensures FitsIn(l, n, rest)
  {
  }

  lemma PassOver(mem: Memory, l: seq<Blk>, n: int, rest: seq<int>, rover: int)
    requires FitsIn(l, n, rest) && InOrder(rest, rover) && rest != [] && rest[0] in mem && mem[rest[0]].size < n
    requires HeadersAgree(mem, l)
    ensures FitsIn(l, n, rest[1..]) && InOrder(rest[1..], rover)
  {
    hide Earlier;
    assert rest == [rest[0]] + rest[1..];
    forall k | 0 <= k < |l| && l[k].size >= n ensures l[k].addr in rest[1..] {
      assert l[k].addr != rest[0];
    }
  }

  /** Every other block of n units or more comes after p. */
  ghost predicate FitsLater(l: seq<Blk>, rover: int, n: int, p: int) {
    forall k :: 0 <= k < |l| && l[k].size >= n && l[k].addr != p ==> Earlier(rover, p, l[k].addr)
  }

  lemma RestIsLater(l: seq<Blk>, n: int, rest: seq<int>, rover: int)
    requires FitsIn(l, n, rest) && InOrder(rest, rover) && rest != []
    ensures FitsLater(l, rover, n, rest[0])
  {
    hide Earlier;
  }

  lemma NothingFits(mem: Memory, l: seq<Blk>, n: int, rest: seq<int>, rover: int)
    requires Ahead(mem, l, rest, rover) && rest[0] == rover && FitsIn(l, n, rest)
    requires HeadersAgree(mem, l) && mem[rover].size < n
    ensures forall k :: 0 <= k < |l| ==> l[k].size < n
  {
    assert rest == [rover];
  }

  /** Freeing b leaves some block at least as large as b. */
  lemma SomeBlockFits(before: seq<Blk>, b: Blk)
    requires Coalesced(before)
    ensures exists k :: 0 <= k < |FreeInto(before, b)| && FreeInto(before, b)[k].size >= b.size
  {
    var k := Place(before, b.addr, 0);
    var m := if k > 0 && End(before[k - 1]) == b.addr then k - 1 else k;
    assert FreeInto(before, b)[m].size >= b.size;
  }
}
